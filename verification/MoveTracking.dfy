/** The watch tracker: how watch paths follow renames between watched directories. A descriptor stands
    for the node it watches; times are in microseconds. */
module MoveTracking {
  import opened Wrappers
  import opened Paths
  import opened TextParts
  import opened FileTree

  const MINUTE: int := 60_000_000
  const UNKNOWN := "-unknown-path"

  predicate EndsWith(s: string, suffix: string) { |suffix| <= |s| && s[|s| - |suffix|..] == suffix }

  lemma EndsWithIff(s: string, suffix: string)
    ensures EndsWith(s, suffix) <==> exists front: string :: s == front + suffix
  {
    if EndsWith(s, suffix) { assert s == s[..|s| - |suffix|] + suffix; }
  }

  predicate InTime(date: int, cleanups: seq<int>) { forall now :: now in cleanups ==> now - date <= MINUTE }

  datatype Record = Record(path: string, date: int)

  function Recent<K>(records: map<K, Record>, now: int): map<K, Record> {
    map k | k in records && now - records[k].date <= MINUTE :: records[k]
  }

  /** The path of a watch after what was at `src` is known to be at `dest`. */
  function FollowMove(path: string, src: string, dest: string): string {
    if src + "/" <= path then JoinPath(dest, path[|src| + 1..]) else path
  }

  /** The tracker's tables as a value: pending sources by cookie, known moves, and the watch paths. */
  datatype Tracker = Tracker(cookies: map<int, Record>, moves: map<string, Record>, paths: map<int, string>) {
    function MovedFrom(wd: int, name: string, cookie: int, now: int): Tracker
      requires wd in paths
    {
      this.(cookies := cookies[cookie := Record(NormPath(JoinPath(paths[wd], name)), now)])
    }

    function MovedTo(wd: int, name: string, cookie: int, now: int): Tracker
      requires wd in paths
    {
      if cookie in cookies then
        this.(moves := moves[cookies[cookie].path := Record(NormPath(JoinPath(paths[wd], name)), now)])
      else this
    }

    function MoveSelf(wd: int): Tracker
      requires wd in paths
    {
      var src := paths[wd];
      if src in moves then
        var dest := moves[src].path;
        this.(paths := map w | w in paths :: FollowMove(if w == wd then dest else paths[w], src, dest))
      else this.(paths := paths[wd := if EndsWith(src, UNKNOWN) then src else src + UNKNOWN])
    }

    function Cleanup(now: int): Tracker { this.(cookies := Recent(cookies, now), moves := Recent(moves, now)) }

    function Cleanups(times: seq<int>): (t: Tracker)
      ensures t.paths == paths
      decreases |times|
    {
      if times == [] then this else Cleanup(times[0]).Cleanups(times[1..])
    }
  }

  class Watch {
    var path: string

    constructor (path: string)
      ensures this.path == path
    {
      this.path := path;
    }
  }

  /** Without a recorded move, the path is marked once, and being told again changes nothing. */
  lemma UnknownMoveIsMarked(st: Tracker, wd: int)
    requires wd in st.paths && st.paths[wd] !in st.moves
    ensures var t := st.MoveSelf(wd);
            && (exists front :: t.paths[wd] == front + "-unknown-path" && (st.paths[wd] in {front, t.paths[wd]}))
            && (t.paths[wd] !in st.moves ==> t.MoveSelf(wd) == t)
            && t == st.(paths := st.paths[wd := t.paths[wd]])
  {
    var src, t := st.paths[wd], st.MoveSelf(wd);
    EndsWithIff(src, UNKNOWN);
    EndsWithIff(src + UNKNOWN, UNKNOWN);
    hide EndsWith;
    if EndsWith(src, UNKNOWN) {
      var front: string :| src == front + UNKNOWN;
      assert t.paths[wd] == front + "-unknown-path";
    } else {
      assert t.paths[wd] == src + "-unknown-path";
    }
    assert t.paths[wd := t.paths[wd]] == t.paths;
  }

  class SysProcessEvent {
    var mvCookie: map<int, Record>
    var mv: map<string, Record>
    var wmd: map<int, Watch>

    /** Every descriptor has its own watch. */
    ghost predicate Valid()
      reads this
    {
      forall v, w :: v in wmd && w in wmd && wmd[v] == wmd[w] ==> v == w
    }

    ghost function State(): Tracker
      reads this, wmd.Values
    {
      Tracker(mvCookie, mv, map wd | wd in wmd :: wmd[wd].path)
    }

    method ProcessMovedFrom(wd: int, name: string, cookie: int, now: int)
      requires wd in wmd
      modifies `mvCookie
      ensures State() == old(State()).MovedFrom(wd, name, cookie, now)
    {
      var srcPath := NormPath(JoinPath(wmd[wd].path, name));
      mvCookie := mvCookie[cookie := Record(srcPath, now)];
    }

    /** The source that the event is shown with, if its cookie is known. */
    method ProcessMovedTo(wd: int, name: string, cookie: int, now: int) returns (src: Option<string>)
      requires wd in wmd
      modifies `mv
      ensures State() == old(State()).MovedTo(wd, name, cookie, now)
      ensures src == if cookie in mvCookie then Some(mvCookie[cookie].path) else None
    {
      var dstPath := NormPath(JoinPath(wmd[wd].path, name));
      src := None;
      if cookie in mvCookie {
        mv := mv[mvCookie[cookie].path := Record(dstPath, now)];
        src := Some(mvCookie[cookie].path);
      }
    }

    method ProcessMoveSelf(wd: int)
      requires Valid() && wd in wmd
      modifies wmd.Values
      ensures State() == old(State()).MoveSelf(wd)
    {
      var watch := wmd[wd];
      var src := watch.path;
      if src in mv {
        var dest := mv[src].path;
        watch.path := dest;
        FollowMoves(src, dest);
      } else {
        if !EndsWith(src, UNKNOWN) {
          watch.path := src + UNKNOWN;
        }
        forall w | w in wmd ensures wmd[w].path == old(State()).MoveSelf(wd).paths[w] {
          assert w == wd || wmd[w] != wmd[wd];
        }
      }
    }

    /** The loop of `process_IN_MOVE_SELF` */
    method FollowMoves(src: string, dest: string)
      modifies wmd.Values
      ensures forall wd :: wd in wmd ==> wmd[wd].path == FollowMove(old(wmd[wd].path), src, dest)
    {
      var todo := wmd.Values;
      while todo != {}
        invariant todo <= wmd.Values
        invariant forall w :: w in todo ==> w.path == old(w.path)
        invariant forall w :: w in wmd.Values && w !in todo ==> w.path == FollowMove(old(w.path), src, dest)
        decreases todo
      {
        var w :| w in todo;
        if src + "/" <= w.path {
          w.path := JoinPath(dest, w.path[|src| + 1..]);
        }
        todo := todo - {w};
      }
    }

    method Cleanup(now: int)
      modifies `mvCookie, `mv
      ensures State() == old(State()).Cleanup(now)
    {
      mvCookie := DropOld(mvCookie, now);
      mv := DropOld(mv, now);
    }
  }

  method DropOld<K(==)>(records: map<K, Record>, now: int) returns (kept: map<K, Record>)
    ensures kept == Recent(records, now)
  {
    kept := records;
    var keys := records.Keys;
    while keys != {}
      invariant keys <= records.Keys
      invariant forall k :: k in kept <==> k in records && (k in keys || now - records[k].date <= MINUTE)
      invariant forall k :: k in kept ==> kept[k] == records[k]
      decreases keys
    {
      var k :| k in keys;
      keys := keys - {k};
      if now - kept[k].date > MINUTE {
        kept := kept - {k};
      }
    }
  }

  // ---- watch paths and the tree ----

  /** The watches show where their nodes are. */
  ghost predicate Right(rooted: bool, shown: map<int, string>, paths: map<int, seq<string>>) {
    forall wd :: wd in shown ==> wd in paths && shown[wd] == Render(rooted, paths[wd])
  }

  /** A rename and its three events: the times of `IN_MOVED_FROM` and `IN_MOVED_TO`, and of the cleanups before
      the first event, between the two, and before `IN_MOVE_SELF`. */
  datatype Move = Move(node: int, to: int, name: string, cookie: int,
                       before: seq<int>, fromTime: int, between: seq<int>, toTime: int, after: seq<int>) {
    /** No cleanup drops what the next event needs. */
    predicate Prompt() {
      InTime(fromTime, between) && InTime(toTime, after)
    }

    /** The file system allows it; the node and both directories are watched, a node that is replaced is not. */
    ghost predicate Fits(t: Tree, paths: map<int, seq<string>>, shown: set<int>) {
      && t.CanRename(paths, node, to, name) && node in shown && t.entries[node].parent in shown && to in shown
      && forall n :: n in t.entries && t.entries[n] == Entry(to, name) ==> n !in shown
    }

    function Tell(st: Tracker, from: Entry): (after: Tracker)
      requires node in st.paths && from.parent in st.paths && to in st.paths
      ensures after.paths.Keys == st.paths.Keys
    {
      var asked := st.Cleanups(before).MovedFrom(from.parent, from.name, cookie, fromTime).Cleanups(between);
      asked.MovedTo(to, name, cookie, toTime).Cleanups(after).MoveSelf(node)
    }
  }

  lemma InTimeFirst(date: int, times: seq<int>)
    requires times != []
    ensures InTime(date, times) <==> times[0] - date <= MINUTE && InTime(date, times[1..])
  {
    assert times[0] in times;
    forall now ensures now in times <==> now == times[0] || now in times[1..] {
      if now in times {
        var i :| 0 <= i < |times| && times[i] == now;
        assert i > 0 ==> times[1..][i - 1] == now;
      }
    }
  }

  /** Cleanups drop exactly what was a minute old at one of them. */
  lemma {:induction false} CleanupsKeep(st: Tracker, times: seq<int>)
    ensures var after := st.Cleanups(times);
            && (forall k :: k in after.cookies <==> k in st.cookies && InTime(st.cookies[k].date, times))
            && (forall k :: k in after.cookies ==> after.cookies[k] == st.cookies[k])
            && (forall k :: k in after.moves <==> k in st.moves && InTime(st.moves[k].date, times))
            && forall k :: k in after.moves ==> after.moves[k] == st.moves[k]
    decreases |times|
  {
    if times != [] {
      CleanupsKeep(st.Cleanup(times[0]), times[1..]);
      forall date { InTimeFirst(date, times); }
    }
  }

  lemma RenderInjective(rooted: bool, p: seq<string>, q: seq<string>)
    requires AreNames(p) && AreNames(q)
    ensures Render(rooted, p) == Render(rooted, q) <==> p == q
  {
    if Render(rooted, p) == Render(rooted, q) {
      RenderIsTop(rooted, p);
      RenderIsTop(rooted, q);
      if p != [] && q != [] {
        RenderParts(rooted, p);
        RenderParts(rooted, q);
        var lead: seq<string> := if rooted then [""] else [];
        assert (lead + p)[|lead|..] == p && (lead + q)[|lead|..] == q;
      }
    }
  }

  lemma RenderIsTop(rooted: bool, p: seq<string>)
    requires AreNames(p)
    ensures Render(rooted, p) == Render(rooted, []) <==> p == []
  {
    if p != [] {
      JoinNonEmpty(p);
      if !rooted {
        RenderParts(rooted, p);
        SplitWhole(".", '/');
        assert [] + p == p && p[0] in p;
      }
    }
  }

  /** A watch follows a known move exactly as its node does. */
  lemma FollowMoveIsRight(rooted: bool, p: seq<string>, from: seq<string>, dest: seq<string>, self: bool)
    requires AreNames(p) && AreNames(from) && AreNames(dest) && from != [] && dest != [] && !(from <= dest)
    requires self <==> p == from
    ensures FollowMove(if self then Render(rooted, dest) else Render(rooted, p),
                       Render(rooted, from), Render(rooted, dest)) == Render(rooted, Moved(p, from, dest))
  {
    if self {
      StartsIff(rooted, dest, from);
      assert dest + [] == dest;
    } else {
      StartsIff(rooted, p, from);
      if Below(p, from) { RestMoved(rooted, p, from, dest); }
    }
  }

  /** `IN_MOVE_SELF` with the right destination on record makes every watch path right again. */
  lemma MoveSelfIsRight(rooted: bool, st: Tracker, t: Tree, paths: map<int, seq<string>>, m: Move)
    requires t.Valid() && PathsOf(t, paths) && m.Fits(t, paths, st.paths.Keys) && Right(rooted, st.paths, paths)
    requires var src := st.paths[m.node];
             src in st.moves && st.moves[src].path == Render(rooted, paths[m.to] + [m.name])
    ensures Right(rooted, st.MoveSelf(m.node).paths, MovedPaths(t, paths, m.node, m.to, m.name))
  {
    var from, dest := paths[m.node], paths[m.to] + [m.name];
    PathsAreNames(t, paths, m.node);
    PathsAreNames(t, paths, m.to);
    forall w | w in st.paths
      ensures w == t.top || w in t.Renamed(m.node, m.to, m.name).entries
      ensures st.MoveSelf(m.node).paths[w] == Render(rooted, Moved(paths[w], from, dest))
    {
      PathsAreNames(t, paths, w);
      if paths[w] == from { OnePathOneNode(t, paths, w, m.node); }
      FollowMoveIsRight(rooted, paths[w], from, dest, w == m.node);
    }
  }

  /** What the first two events leave behind: the right destination if the cleanups were prompt, and
      otherwise no record for the source; a late cleanup drops an older record as well. */
  lemma RecordedMove(rooted: bool, st: Tracker, t: Tree, paths: map<int, seq<string>>, m: Move) returns (last: Tracker)
    requires t.Valid() && PathsOf(t, paths) && m.Fits(t, paths, st.paths.Keys) && Right(rooted, st.paths, paths)
    ensures last.paths == st.paths && last.MoveSelf(m.node) == m.Tell(st, t.entries[m.node])
    ensures var src, dest := st.paths[m.node], Render(rooted, paths[m.to] + [m.name]);
            && (m.Prompt() ==> src in last.moves && last.moves[src].path == dest)
            && (!m.Prompt() && (src in st.moves ==> st.moves[src].date <= m.fromTime) ==> src !in last.moves)
  {
    var from := t.entries[m.node];
    var s0 := st.Cleanups(m.before);
    var s1 := s0.MovedFrom(from.parent, from.name, m.cookie, m.fromTime);
    var s2 := s1.Cleanups(m.between);
    var s3 := s2.MovedTo(m.to, m.name, m.cookie, m.toTime);
    last := s3.Cleanups(m.after);
    CleanupsKeep(st, m.before);
    CleanupsKeep(s1, m.between);
    CleanupsKeep(s3, m.after);
    PathsAreNames(t, paths, from.parent);
    PathsAreNames(t, paths, m.to);
    ChildPath(rooted, paths[from.parent], from.name);
    ChildPath(rooted, paths[m.to], m.name);
  }

  /** The marked source path happens to be the destination, and no watch is below. */
  ghost predicate LooksUnknown(rooted: bool, paths: map<int, seq<string>>, shown: set<int>, m: Move)
    requires m.node in paths && m.to in paths
  {
    && Render(rooted, paths[m.to] + [m.name]) == Render(rooted, paths[m.node]) + UNKNOWN
    && !EndsWith(Render(rooted, paths[m.node]), UNKNOWN)
    && forall w :: w in shown && w in paths && w != m.node ==> !(paths[m.node] <= paths[w])
  }

  lemma MovedDiffers(p: seq<string>, from: seq<string>, dest: seq<string>)
    requires from <= p && from != dest
    ensures Moved(p, from, dest) != p
  {
  }

  /** The other watches are right as they are exactly if they are not below the moved node. */
  lemma OthersStay(rooted: bool, shown: map<int, string>, t: Tree, paths: map<int, seq<string>>, m: Move)
    requires t.Valid() && PathsOf(t, paths) && m.Fits(t, paths, shown.Keys) && Right(rooted, shown, paths)
    ensures var moved := MovedPaths(t, paths, m.node, m.to, m.name);
      forall w :: w in shown && w != m.node ==>
        w in paths && w in moved && (shown[w] == Render(rooted, moved[w]) <==> !(paths[m.node] <= paths[w]))
  {
    PathsAreNames(t, paths, m.to);
    forall w | w in shown && w != m.node
      ensures shown[w] == Render(rooted, Moved(paths[w], paths[m.node], paths[m.to] + [m.name]))
        <==> !(paths[m.node] <= paths[w])
    {
      PathsAreNames(t, paths, w);
      StaysIff(rooted, paths[w], paths[m.node], paths[m.to] + [m.name]);
    }
  }

  /** A move without a record leaves the watch paths wrong, but for a chance match of the mark. */
  lemma UnrecordedMove(rooted: bool, st: Tracker, t: Tree, paths: map<int, seq<string>>, m: Move)
    requires t.Valid() && PathsOf(t, paths) && m.Fits(t, paths, st.paths.Keys) && Right(rooted, st.paths, paths)
    requires st.paths[m.node] !in st.moves
    ensures Right(rooted, st.MoveSelf(m.node).paths, MovedPaths(t, paths, m.node, m.to, m.name))
      <==> LooksUnknown(rooted, paths, st.paths.Keys, m)
  {
    var from, dest := paths[m.node], paths[m.to] + [m.name];
    PathsAreNames(t, paths, m.node);
    PathsAreNames(t, paths, m.to);
    RenderInjective(rooted, from, dest);
    OthersStay(rooted, st.paths, t, paths, m);
    var moved := MovedPaths(t, paths, m.node, m.to, m.name);
    assert m.node in moved && moved[m.node] == dest by { assert dest + [] == dest; }
    var src := Render(rooted, from);
    var below := set w | w in st.paths && w in paths && from <= paths[w];
    OneMarked(rooted, st.paths, moved, m.node, if EndsWith(src, UNKNOWN) then src else src + UNKNOWN, below);
  }

  lemma OneMarked(rooted: bool, shown: map<int, string>, moved: map<int, seq<string>>, node: int, mark: string,
                  below: set<int>)
    requires node in shown && node in moved
    requires forall w :: w in shown && w != node ==> w in moved && (shown[w] == Render(rooted, moved[w]) <==> w !in below)
    ensures Right(rooted, shown[node := mark], moved) <==>
      mark == Render(rooted, moved[node]) && forall w :: w in shown && w != node ==> w !in below
  {
  }

  lemma StaysIff(rooted: bool, p: seq<string>, from: seq<string>, dest: seq<string>)
    requires AreNames(p) && AreNames(dest) && from != dest
    ensures Render(rooted, p) == Render(rooted, Moved(p, from, dest)) <==> !(from <= p)
  {
    if from <= p {
      MovedDiffers(p, from, dest);
      MovedAreNames(p, from, dest);
      RenderInjective(rooted, p, Moved(p, from, dest));
    }
  }

  lemma MovedAreNames(p: seq<string>, from: seq<string>, dest: seq<string>)
    requires AreNames(p) && AreNames(dest)
    ensures AreNames(Moved(p, from, dest))
  {
  }

  /** The three events make every watch path right exactly if no cleanup comes too late. A record that an
      earlier move has left for the same path makes no difference, as the clock does not go back. */
  lemma MoveIsTrackedIff(rooted: bool, st: Tracker, t: Tree, paths: map<int, seq<string>>, m: Move)
    requires t.Valid() && PathsOf(t, paths) && m.Fits(t, paths, st.paths.Keys) && Right(rooted, st.paths, paths)
    requires st.paths[m.node] in st.moves ==> st.moves[st.paths[m.node]].date <= m.fromTime
    ensures Right(rooted, m.Tell(st, t.entries[m.node]).paths, MovedPaths(t, paths, m.node, m.to, m.name))
      <==> m.Prompt() || LooksUnknown(rooted, paths, st.paths.Keys, m)
  {
    var last := RecordedMove(rooted, st, t, paths, m);
    if m.Prompt() {
      MoveSelfIsRight(rooted, last, t, paths, m);
    } else {
      UnrecordedMove(rooted, last, t, paths, m);
    }
  }

  /** `/a/x` is renamed to `/b/x`, with all three watched, and a cleanup comes a minute and a microsecond
      after the first event. */
  const LATE := Move(3, 2, "x", 7, [], 0, [60_000_001], 60_000_001, [])

  function LateTree(): Tree { Tree(0, map[1 := Entry(0, "a"), 2 := Entry(0, "b"), 3 := Entry(1, "x")]) }
  function LatePaths(): map<int, seq<string>> { map[0 := [], 1 := ["a"], 2 := ["b"], 3 := ["a", "x"]] }
  function LateWatches(): map<int, string> { map[1 := "/a", 2 := "/b", 3 := "/a/x"] }

  lemma LateTreeIsRight()
    ensures LateTree().Valid() && PathsOf(LateTree(), LatePaths())
  {
    assert ["a", "x"] == ["a"] + ["x"];
  }

  lemma LateWatchesAreRight()
    ensures Right(true, LateWatches(), LatePaths()) && Render(true, ["b", "x"]) == "/b/x"
  {
    assert ["a", "x"][1..] == ["x"] && ["b", "x"][1..] == ["x"];
  }

  lemma LateFits()
    ensures LATE.Fits(LateTree(), LatePaths(), LateWatches().Keys)
    ensures LatePaths()[2] + ["x"] == ["b", "x"]
  {
    var t, paths := LateTree(), LatePaths();
    assert paths[2] + ["x"] == ["b", "x"];
    assert IsName("x") && !(paths[3] <= ["b", "x"]) by { assert paths[3][0] != "b"; }
    assert t.CanRename(paths, 3, 2, "x");
  }

  lemma LateCleanupMisleads()
    ensures var t, paths, st := LateTree(), LatePaths(), Tracker(map[], map[], LateWatches());
            && t.Valid() && PathsOf(t, paths) && LATE.Fits(t, paths, st.paths.Keys) && Right(true, st.paths, paths)
            && !Right(true, LATE.Tell(st, t.entries[LATE.node]).paths, MovedPaths(t, paths, LATE.node, LATE.to, LATE.name))
  {
    var t, paths, st := LateTree(), LatePaths(), Tracker(map[], map[], LateWatches());
    LateTreeIsRight();
    LateWatchesAreRight();
    LateFits();
    assert !LATE.Prompt() by { assert MINUTE + 1 in LATE.between; }
    assert paths[LATE.to] + [LATE.name] == ["b", "x"];
    hide LateTree, PathsOf, Right, Move.Fits, MovedPaths, Move.Tell, Render, EndsWith;
    MoveIsTrackedIff(true, st, t, paths, LATE);
  }

  /** A run of moves that the file system allows, told without delay. */
  ghost predicate FitsRun(t: Tree, paths: map<int, seq<string>>, shown: set<int>, run: seq<Move>)
    decreases |run|
  {
    run != [] ==>
      var m := run[0];
      && m.Fits(t, paths, shown) && m.Prompt()
      && FitsRun(t.Renamed(m.node, m.to, m.name), MovedPaths(t, paths, m.node, m.to, m.name), shown, run[1..])
  }

  ghost function TreeAfter(t: Tree, run: seq<Move>): Tree
    decreases |run|
  {
    if run == [] then t else TreeAfter(t.Renamed(run[0].node, run[0].to, run[0].name), run[1..])
  }

  ghost function TrackerAfter(st: Tracker, t: Tree, paths: map<int, seq<string>>, run: seq<Move>): Tracker
    requires FitsRun(t, paths, st.paths.Keys, run)
    decreases |run|
  {
    if run == [] then st
    else
      var m := run[0];
      var next := m.Tell(st, t.entries[m.node]);
      TrackerAfter(next, t.Renamed(m.node, m.to, m.name), MovedPaths(t, paths, m.node, m.to, m.name), run[1..])
  }

  /** After any such run every watch shows the path that its node has in the tree. */
  lemma {:induction false} RunIsTracked(rooted: bool, st: Tracker, t: Tree, paths: map<int, seq<string>>,
                                        run: seq<Move>, end: map<int, seq<string>>)
    requires t.Valid() && PathsOf(t, paths) && Right(rooted, st.paths, paths)
    requires FitsRun(t, paths, st.paths.Keys, run) && PathsOf(TreeAfter(t, run), end)
    ensures Right(rooted, TrackerAfter(st, t, paths, run).paths, end)
    decreases |run|
  {
    if run == [] {
      forall wd | wd in st.paths ensures wd in end && end[wd] == paths[wd] { PathIsUnique(t, paths, end, wd); }
    } else {
      var m := run[0];
      var last := RecordedMove(rooted, st, t, paths, m);
      MoveSelfIsRight(rooted, last, t, paths, m);
      RenameMovesPaths(t, paths, m.node, m.to, m.name);
      hide PathsOf, Right, MovedPaths, Move.Tell, Move.Fits, Tree.Renamed, Tree.Valid, Tracker.MoveSelf;
      var next := m.Tell(st, t.entries[m.node]);
      RunIsTracked(rooted, next, t.Renamed(m.node, m.to, m.name), MovedPaths(t, paths, m.node, m.to, m.name), run[1..], end);
    }
  }
}
