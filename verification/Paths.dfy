/** The parts of `posixpath` that the watch tracker uses, and paths as lists of names. */
module Paths {
  import opened Lists
  import opened TextParts

  /** `os.path.join` of two paths. */
  function JoinPath(a: string, b: string): string {
    if "/" <= b then b
    else if a == "" || a[|a| - 1] == '/' then a + b
    else a + "/" + b
  }

  /** The component loop of `os.path.normpath`. */
  function Normalised(comps: seq<string>, rooted: bool): seq<string> {
    if comps == [] then []
    else
      var done, comp := Normalised(comps[..|comps| - 1], rooted), comps[|comps| - 1];
      if comp == "" || comp == "." then done
      else if comp != ".." || (!rooted && done == []) || (done != [] && done[|done| - 1] == "..") then done + [comp]
      else if done != [] then done[..|done| - 1]
      else done
  }

  /** `os.path.normpath` */
  function NormPath(path: string): string {
    if path == "" then "."
    else
      var rooted := "/" <= path;
      var slashes := if "//" <= path && !("///" <= path) then "//" else if rooted then "/" else "";
      var s := slashes + Join(Normalised(Split(path, '/'), rooted), '/');
      if s == "" then "." else s
  }

  /** A file name: not empty, without a slash, and not a dot or two. */
  predicate IsName(s: string) { s != "" && '/' !in s && s != "." && s != ".." }

  ghost predicate AreNames(p: seq<string>) { forall n :: n in p ==> IsName(n) }

  /** The normalised path of a list of names, from the root or from the working directory. */
  function Render(rooted: bool, p: seq<string>): string {
    if p == [] then if rooted then "/" else "."
    else (if rooted then "/" else "") + Join(p, '/')
  }

  /** Names are kept by the component loop, whatever was dropped before them. */
  lemma {:induction false} NamesAreNormal(lead: seq<string>, p: seq<string>, rooted: bool)
    requires AreNames(p) && Normalised(lead, rooted) == []
    ensures Normalised(lead + p, rooted) == p
  {
    if p == [] {
      assert lead + p == lead;
    } else {
      var front, last := p[..|p| - 1], p[|p| - 1];
      PrefixGrows(p, |p| - 1);
      NamesAreNormal(lead, front, rooted);
      assert p == front + [last] && last in p && IsName(last);
      assert (lead + p)[..|lead + p| - 1] == lead + front;
    }
  }

  lemma JoinNonEmpty(p: seq<string>)
    requires AreNames(p) && p != []
    ensures Join(p, '/') != "" && p[0] != "" && Join(p, '/')[0] == p[0][0] != '/'
    ensures Join(p, '/')[|Join(p, '/')| - 1] != '/'
  {
    assert p[0] in p;
    if |p| > 1 {
      assert forall n :: n in p[1..] ==> n in p;
      JoinNonEmpty(p[1..]);
    }
  }

  lemma {:induction false} JoinAppended(p: seq<string>, q: seq<string>)
    requires p != [] && q != []
    ensures Join(p + q, '/') == Join(p, '/') + "/" + Join(q, '/')
  {
    if |p| == 1 {
      assert (p + q)[1..] == q;
    } else {
      JoinAppended(p[1..], q);
      assert (p + q)[1..] == p[1..] + q;
      SepsAssociate(p[0], Join(p[1..], '/'), Join(q, '/'), '/');
    }
  }

  /** Joining a child's name to a rendered path and normalising gives the child's rendered path. */
  lemma ChildPath(rooted: bool, p: seq<string>, name: string)
    requires AreNames(p) && IsName(name)
    ensures NormPath(JoinPath(Render(rooted, p), name)) == Render(rooted, p + [name])
  {
    assert name[0] in name;
    var path := JoinPath(Render(rooted, p), name);
    if p == [] {
      ChildOfTop(rooted, name);
    } else {
      JoinNonEmpty(p);
      JoinAppended(p, [name]);
      assert path == Render(rooted, p) + "/" + name;
      assert path == Render(rooted, p + [name]) by {
        AppendAssociates(if rooted then "/" else "", Join(p, '/') + "/", name);
        AppendAssociates(if rooted then "/" else "", Join(p, '/'), "/");
      }
      assert AreNames(p + [name]);
      NormalRender(rooted, p + [name]);
    }
  }

  lemma ChildOfTop(rooted: bool, name: string)
    requires IsName(name)
    ensures NormPath(JoinPath(Render(rooted, []), name)) == Render(rooted, [name])
  {
    var lead := if rooted then "" else ".";
    JoinedToTop(rooted, name);
    SplitWhole(name, '/');
    SplitFirst(lead, name, '/');
    NamesAreNormal([lead], [name], rooted);
    hide AreNames, Split, Normalised, IsName, JoinPath;
  }

  lemma JoinedToTop(rooted: bool, name: string)
    requires IsName(name)
    ensures JoinPath(Render(rooted, []), name) == (if rooted then "" else ".") + ['/'] + name
    ensures "/" <= JoinPath(Render(rooted, []), name) <==> rooted
    ensures !("//" <= JoinPath(Render(rooted, []), name))
  {
    assert name[0] in name;
    if rooted {
      assert JoinPath("/", name) == "" + ['/'] + name;
      assert JoinPath("/", name)[1] == name[0];
    } else {
      assert JoinPath(".", name) == "." + ['/'] + name;
    }
  }

  lemma NormalRender(rooted: bool, p: seq<string>)
    requires AreNames(p) && p != []
    ensures NormPath(Render(rooted, p)) == Render(rooted, p)
  {
    JoinNonEmpty(p);
    RenderParts(rooted, p);
    NamesAreNormal(if rooted then [""] else [], p, rooted);
    var path := Render(rooted, p);
    assert rooted ==> path[1] == p[0][0];
    assert !rooted ==> path[0] == p[0][0];
    hide AreNames, Join, Split, Normalised;
    assert [] + p == p;
    assert ("/" <= path <==> rooted) && !("//" <= path) && path != "";
  }

  // ---- prefixes ----

  ghost predicate Below(p: seq<string>, s: seq<string>) { |s| < |p| && s <= p }

  /** A rendered path starts with another one and a slash exactly if the names do. */
  lemma StartsIff(rooted: bool, p: seq<string>, s: seq<string>)
    requires AreNames(p) && AreNames(s) && s != []
    ensures Render(rooted, s) + "/" <= Render(rooted, p) <==> Below(p, s)
  {
    hide Render, AreNames;
    if Below(p, s) { RestOfPath(rooted, p, s); }
    if Render(rooted, s) + "/" <= Render(rooted, p) { StartsBelow(rooted, p, s); }
  }

  lemma StartsBelow(rooted: bool, p: seq<string>, s: seq<string>)
    requires AreNames(p) && AreNames(s) && s != [] && Render(rooted, s) + "/" <= Render(rooted, p)
    ensures Below(p, s)
  {
    JoinNonEmpty(s);
    if p != [] {
      hide Render, AreNames, Join, Split;
      var rest := Render(rooted, p)[|Render(rooted, s)| + 1..];
      assert Render(rooted, p) == Render(rooted, s) + ['/'] + rest;
      SplitTwo(Render(rooted, s), rest, '/');
      RenderParts(rooted, p);
      RenderParts(rooted, s);
      var top: seq<string> := if rooted then [""] else [];
      PartsBelow(top, p, s, Split(rest, '/'));
    }
  }

  lemma PartsBelow(top: seq<string>, p: seq<string>, s: seq<string>, rest: seq<string>)
    requires top + p == (top + s) + rest && rest != []
    ensures Below(p, s)
  {
    assert p == (top + p)[|top|..] == s + rest;
  }

  lemma RenderParts(rooted: bool, p: seq<string>)
    requires AreNames(p) && p != []
    ensures Split(Render(rooted, p), '/') == (if rooted then [""] else []) + p
  {
    forall n | n in p ensures '/' !in n { assert IsName(n); }
    SplitJoin(p, '/');
    if rooted {
      SplitFirst("", Join(p, '/'), '/');
      assert Render(rooted, p) == "" + "/" + Join(p, '/');
    } else {
      assert Render(rooted, p) == Join(p, '/');
      assert [] + p == p;
    }
  }

  /** What is left of a rendered path after a prefix and the slash. */
  lemma RestOfPath(rooted: bool, p: seq<string>, s: seq<string>)
    requires s != [] && Below(p, s)
    ensures Render(rooted, p) == Render(rooted, s) + "/" + Join(p[|s|..], '/')
  {
    JoinAppended(s, p[|s|..]);
    assert p == s + p[|s|..];
    var top := if rooted then "/" else "";
    AppendAssociates(top, Join(s, '/') + "/", Join(p[|s|..], '/'));
    AppendAssociates(top, Join(s, '/'), "/");
  }

  /** Putting the rest under another path gives the path of the names put together. */
  lemma RestMoved(rooted: bool, p: seq<string>, s: seq<string>, d: seq<string>)
    requires AreNames(p) && s != [] && d != [] && Below(p, s)
    requires AreNames(d)
    ensures |Render(rooted, s)| + 1 <= |Render(rooted, p)|
    ensures JoinPath(Render(rooted, d), Render(rooted, p)[|Render(rooted, s)| + 1..]) == Render(rooted, d + p[|s|..])
  {
    var rest := p[|s|..];
    TailIsNames(p, |s|);
    JoinNonEmpty(rest);
    hide AreNames, Join, Render;
    RenderEnds(rooted, d);
    assert (d + rest)[..|d|] == d && (d + rest)[|d|..] == rest;
    RestOfPath(rooted, p, s);
    RestOfPath(rooted, d + rest, d);
    assert Render(rooted, p)[|Render(rooted, s)| + 1..] == Join(rest, '/');
    PlainJoin(Render(rooted, d), Join(rest, '/'));
  }

  lemma TailIsNames(p: seq<string>, n: nat)
    requires AreNames(p) && n <= |p|
    ensures AreNames(p[n..])
  {
  }

  lemma RenderEnds(rooted: bool, d: seq<string>)
    requires AreNames(d) && d != []
    ensures Render(rooted, d) != "" && Render(rooted, d)[|Render(rooted, d)| - 1] != '/'
  {
    JoinNonEmpty(d);
  }

  lemma PlainJoin(a: string, b: string)
    requires a != "" && a[|a| - 1] != '/' && b != "" && b[0] != '/'
    ensures JoinPath(a, b) == a + "/" + b
  {
  }
}
