/** The file tree that watched items live in. Every node but the top has one entry: its parent and its
    name there. A rename changes one entry, and with it the paths of everything below. */
module FileTree {
  import opened Paths

  datatype Entry = Entry(parent: int, name: string)

  datatype Tree = Tree(top: int, entries: map<int, Entry>) {
    ghost predicate Valid() {
      && top !in entries
      && (forall n :: n in entries ==> IsName(entries[n].name))
      && forall m, n :: m in entries && n in entries && entries[m] == entries[n] ==> m == n
    }

    /** The node that a rename to this entry replaces, and everything else, kept. */
    function Renamed(node: int, to: int, name: string): Tree {
      Tree(top, map n | n in entries && (n == node || entries[n] != Entry(to, name)) ::
        if n == node then Entry(to, name) else entries[n])
    }

    /** What a rename asks for: the node is not put below itself or where it is, and a node that
        it replaces has nothing in it. */
    ghost predicate CanRename(paths: map<int, seq<string>>, node: int, to: int, name: string) {
      && node in entries && IsName(name) && node in paths && to in paths
      && !(paths[node] <= paths[to] + [name])
      && forall n, m :: n in entries && m in entries && entries[n] == Entry(to, name) ==> entries[m].parent != n
    }
  }

  /** Every node has one path, the path of its parent and its name. */
  ghost predicate PathsOf(t: Tree, paths: map<int, seq<string>>) {
    && (forall n :: n in paths <==> n == t.top || n in t.entries)
    && paths[t.top] == []
    && forall n :: n in t.entries && n != t.top ==>
        t.entries[n].parent in paths && paths[n] == paths[t.entries[n].parent] + [t.entries[n].name]
  }

  lemma {:induction false} PathIsUnique(t: Tree, p: map<int, seq<string>>, q: map<int, seq<string>>, n: int)
    requires t.top !in t.entries && PathsOf(t, p) && PathsOf(t, q) && n in p
    ensures n in q && q[n] == p[n]
    decreases |p[n]|
  {
    if n != t.top {
      PathIsUnique(t, p, q, t.entries[n].parent);
    }
  }

  /** A path leads to one node only. */
  lemma {:induction false} OnePathOneNode(t: Tree, paths: map<int, seq<string>>, m: int, n: int)
    requires t.Valid() && PathsOf(t, paths) && m in paths && n in paths && paths[m] == paths[n]
    ensures m == n
    decreases |paths[m]|
  {
    if m != t.top && n != t.top {
      var a, b := t.entries[m], t.entries[n];
      assert paths[m][..|paths[m]| - 1] == paths[a.parent] && paths[n][..|paths[n]| - 1] == paths[b.parent];
      assert paths[m][|paths[m]| - 1] == a.name && paths[n][|paths[n]| - 1] == b.name;
      OnePathOneNode(t, paths, a.parent, b.parent);
    }
  }

  lemma {:induction false} PathsAreNames(t: Tree, paths: map<int, seq<string>>, n: int)
    requires t.Valid() && PathsOf(t, paths) && n in paths
    ensures AreNames(paths[n]) && (n in t.entries ==> paths[n] != [])
    decreases |paths[n]|
  {
    if n != t.top {
      PathsAreNames(t, paths, t.entries[n].parent);
    }
  }

  /** Where a path leads after what is at `from` has moved to `to`. */
  function Moved(path: seq<string>, from: seq<string>, to: seq<string>): seq<string> {
    if from <= path then to + path[|from|..] else path
  }

  function MovedPaths(t: Tree, paths: map<int, seq<string>>, node: int, to: int, name: string): map<int, seq<string>>
    requires node in paths && to in paths
  {
    map n | n in paths && (n == t.top || n in t.Renamed(node, to, name).entries) ::
      Moved(paths[n], paths[node], paths[to] + [name])
  }

  lemma MovedChild(path: seq<string>, name: string, from: seq<string>, to: seq<string>)
    requires path + [name] != from
    ensures Moved(path + [name], from, to) == Moved(path, from, to) + [name]
  {
  }

  lemma RenameKeepsValid(t: Tree, paths: map<int, seq<string>>, node: int, to: int, name: string)
    requires t.Valid() && PathsOf(t, paths) && t.CanRename(paths, node, to, name)
    ensures t.Renamed(node, to, name).Valid()
  {
  }

  /** Changing the one entry changes the paths of everything at and below the node, and no other path. */
  lemma RenameMovesPaths(t: Tree, paths: map<int, seq<string>>, node: int, to: int, name: string)
    requires t.Valid() && PathsOf(t, paths) && t.CanRename(paths, node, to, name)
    ensures t.Renamed(node, to, name).Valid()
    ensures PathsOf(t.Renamed(node, to, name), MovedPaths(t, paths, node, to, name))
  {
    var from, dest := paths[node], paths[to] + [name];
    var after, moved := t.Renamed(node, to, name), MovedPaths(t, paths, node, to, name);
    RenameKeepsValid(t, paths, node, to, name);
    forall n | n in after.entries && n != node
      ensures t.entries[n].parent in moved && moved[n] == moved[t.entries[n].parent] + [t.entries[n].name]
    {
      if paths[n] == from { OnePathOneNode(t, paths, n, node); }
      MovedChild(paths[t.entries[n].parent], t.entries[n].name, from, dest);
    }
    assert moved[node] == dest + [] == dest;
  }
}
