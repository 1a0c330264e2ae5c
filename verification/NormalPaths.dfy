/** `os.path.normpath` for every path, also with empty parts, dots and parent directories: where the path
    leads, and that a normal path stays as it is. */
module NormalPaths {
  import opened Lists
  import opened Paths
  import opened TextParts

  /** A place seen from the start: so many directories up, then down along the names. */
  datatype Place = Place(ups: nat, names: seq<string>)

  function Ups(n: nat): (p: seq<string>)
    ensures |p| == n && forall x :: x in p ==> x == ".."
  {
    seq(n, _ => "..")
  }

  /** One step of walking: the parent of the root is the root. */
  function Walk(at: Place, comp: string, rooted: bool): Place {
    if comp in {"", "."} then at
    else if comp != ".." then at.(names := at.names + [comp])
    else if at.names != [] then at.(names := at.names[..|at.names| - 1])
    else if rooted then at
    else Place(at.ups + 1, [])
  }

  function Reached(comps: seq<string>, rooted: bool): Place {
    if comps == [] then Place(0, []) else Walk(Reached(comps[..|comps| - 1], rooted), comps[|comps| - 1], rooted)
  }

  predicate IsDown(name: string) { name != "" && name != "." && name != ".." }

  function Parts(at: Place): seq<string> { Ups(at.ups) + at.names }

  /** The component loop spells the place that the components lead to. */
  lemma {:induction false} LoopReaches(comps: seq<string>, rooted: bool)
    ensures var at := Reached(comps, rooted);
            && Normalised(comps, rooted) == Parts(at) && (rooted ==> at.ups == 0)
            && (forall n :: n in at.names ==> IsDown(n) && n in comps)
  {
    if comps != [] {
      var front, comp := comps[..|comps| - 1], comps[|comps| - 1];
      LoopReaches(front, rooted);
      var at := Reached(front, rooted);
      PrefixGrows(comps, |comps| - 1);
      LoopStep(Normalised(front, rooted), at, comp, rooted);
      NamesDown(at, comp, rooted);
      hide Walk, IsDown, Parts;
    }
  }

  lemma NamesDown(at: Place, comp: string, rooted: bool)
    requires (rooted ==> at.ups == 0) && forall n :: n in at.names ==> IsDown(n)
    ensures var to := Walk(at, comp, rooted);
            (rooted ==> to.ups == 0) && forall n :: n in to.names ==> IsDown(n) && (n in at.names || n == comp)
  {
  }

  lemma LoopStep(done: seq<string>, at: Place, comp: string, rooted: bool)
    requires done == Parts(at) && (rooted ==> at.ups == 0) && forall n :: n in at.names ==> IsDown(n)
    ensures Parts(Walk(at, comp, rooted)) ==
      if comp == "" || comp == "." then done
      else if comp != ".." || (!rooted && done == []) || (done != [] && done[|done| - 1] == "..") then done + [comp]
      else if done != [] then done[..|done| - 1]
      else done
  {
    if comp == ".." {
      if at.names != [] {
        assert done[|done| - 1] in at.names;
        assert Parts(Walk(at, comp, rooted)) == done[..|done| - 1];
      } else if !rooted {
        assert Parts(Walk(at, comp, rooted)) == done + [".."];
      }
    }
  }

  /** So many slashes. */
  function Slashes(n: nat): (s: string)
    ensures |s| == n && forall i :: 0 <= i < n ==> s[i] == '/'
  {
    seq(n, _ => '/')
  }

  /** Two leading slashes are kept, any other number counts as one. */
  function Lead(n: nat): nat { if n == 2 then 2 else if n > 0 then 1 else 0 }

  function Spelled(lead: nat, at: Place): string {
    if lead == 0 && Parts(at) == [] then "." else Slashes(lead) + Join(Parts(at), '/')
  }

  /** Splitting a path gives an empty part for every leading slash; these lead nowhere. */
  lemma {:induction false} SlashesLeadNowhere(n: nat, rest: string, rooted: bool)
    ensures Reached(Split(Slashes(n) + rest, '/'), rooted) == Reached(Split(rest, '/'), rooted)
  {
    if n == 0 {
      assert Slashes(0) + rest == rest;
    } else {
      var s := Slashes(n - 1) + rest;
      assert Slashes(n) + rest == "" + ['/'] + s;
      SplitFirst("", s, '/');
      EmptyFirst(Split(s, '/'), rooted);
      SlashesLeadNowhere(n - 1, rest, rooted);
    }
  }

  lemma {:induction false} EmptyFirst(comps: seq<string>, rooted: bool)
    ensures Reached([""] + comps, rooted) == Reached(comps, rooted)
  {
    if comps == [] {
      assert [""] + comps == [""] && [""][..0] == [];
      assert Reached([""], rooted) == Walk(Reached([], rooted), "", rooted);
    } else {
      EmptyFirst(comps[..|comps| - 1], rooted);
      assert ([""] + comps)[..|comps|] == [""] + comps[..|comps| - 1];
    }
  }

  /** A normalised path spells where the path leads. */
  lemma NormPathSpells(n: nat, rest: string)
    requires rest != "" ==> rest[0] != '/'
    ensures NormPath(Slashes(n) + rest) == Spelled(Lead(n), Reached(Split(rest, '/'), n > 0))
  {
    hide Split, Normalised, Reached, Join, Slashes, Parts, IsDown;
    var path, rooted := Slashes(n) + rest, n > 0;
    var at := Reached(Split(rest, '/'), rooted);
    LeadingSlashes(n, rest);
    SlashesLeadNowhere(n, rest, rooted);
    LoopReaches(Split(path, '/'), rooted);
    SlashTexts();
    JoinOfNone();
    if path == "" {
      NothingReached();
    } else if Parts(at) != [] {
      PartsJoined(at);
    }
  }

  lemma SlashTexts()
    ensures Slashes(0) == "" && Slashes(1) == "/" && Slashes(2) == "//"
  {
  }

  lemma JoinOfNone()
    ensures Join([], '/') == ""
  {
  }

  lemma NothingReached()
    ensures Reached(Split("", '/'), false) == Place(0, []) && Parts(Place(0, [])) == []
  {
    SplitWhole("", '/');
    assert [""][..0] == [];
  }

  lemma LeadingSlashes(n: nat, rest: string)
    requires rest != "" ==> rest[0] != '/'
    ensures var path := Slashes(n) + rest;
            && ("/" <= path <==> n >= 1) && ("//" <= path <==> n >= 2) && ("///" <= path <==> n >= 3)
  {
    var path := Slashes(n) + rest;
    if n < |path| { assert path[n] == rest[0]; }
    assert forall i :: 0 <= i < n ==> path[i] == '/';
  }

  lemma PartsJoined(at: Place)
    requires Parts(at) != [] && forall x :: x in at.names ==> IsDown(x)
    ensures Join(Parts(at), '/') != ""
  {
    var p := Parts(at);
    assert p[0] in p && p[0] != "";
    assert |p| > 1 ==> |Join(p, '/')| > 0;
  }

  /** Walking on from a place. */
  function ReachedFrom(at: Place, comps: seq<string>, rooted: bool): Place {
    if comps == [] then at else Walk(ReachedFrom(at, comps[..|comps| - 1], rooted), comps[|comps| - 1], rooted)
  }

  lemma {:induction false} WalkedOn(a: seq<string>, b: seq<string>, rooted: bool)
    ensures Reached(a + b, rooted) == ReachedFrom(Reached(a, rooted), b, rooted)
  {
    if b == [] {
      assert a + b == a;
    } else {
      WalkedOn(a, b[..|b| - 1], rooted);
      assert (a + b)[..|a + b| - 1] == a + b[..|b| - 1];
    }
  }

  /** A joined path leads from where the first leads along the second; an absolute one replaces the first. */
  lemma JoinLeads(a: string, b: string, rooted: bool)
    ensures b != "" && b[0] == '/' ==> JoinPath(a, b) == b
    ensures b == "" || b[0] != '/' ==>
      Reached(Split(JoinPath(a, b), '/'), rooted) ==
        ReachedFrom(Reached(Split(a, '/'), rooted), Split(b, '/'), rooted)
  {
    if b == "" || b[0] != '/' {
      if a == "" {
        assert a + b == b;
        SplitWhole("", '/');
        FromNowhere(Split(b, '/'), rooted);
      } else if a[|a| - 1] == '/' {
        var dir := a[..|a| - 1];
        assert a == dir + ['/'] + "" && a + b == dir + ['/'] + b;
        SplitTwo(dir, b, '/');
        SplitTwo(dir, "", '/');
        SplitWhole("", '/');
        WalkedOn(Split(dir, '/'), Split(b, '/'), rooted);
        WalkedOn(Split(dir, '/'), [""], rooted);
        EmptyStep(Reached(Split(dir, '/'), rooted), rooted);
      } else {
        assert a + "/" + b == a + ['/'] + b;
        SplitTwo(a, b, '/');
        WalkedOn(Split(a, '/'), Split(b, '/'), rooted);
      }
    }
  }

  lemma EmptyStep(at: Place, rooted: bool)
    ensures ReachedFrom(at, [""], rooted) == at
  {
    assert [""][..0] == [];
  }

  lemma FromNowhere(comps: seq<string>, rooted: bool)
    ensures ReachedFrom(Reached([""], rooted), comps, rooted) == Reached(comps, rooted)
  {
    WalkedOn([""], comps, rooted);
    EmptyFirst(comps, rooted);
  }

  /** Normal paths stay as they are. */
  lemma NormalStays(path: string)
    ensures NormPath(NormPath(path)) == NormPath(path)
  {
    var n := SlashesOf(path);
    var rest, rooted := path[n..], n > 0;
    NormPathSpells(n, rest);
    var at := Reached(Split(rest, '/'), rooted);
    LoopReaches(Split(rest, '/'), rooted);
    assert path == Slashes(n) + rest;
    forall x | x in at.names ensures '/' !in x { assert x in Split(rest, '/'); }
    SpelledStays(Lead(n), at);
  }

  lemma {:induction false} SlashesOf(path: string) returns (n: nat)
    ensures n <= |path| && path == Slashes(n) + path[n..] && (n < |path| ==> path[n] != '/')
  {
    if path == "" || path[0] != '/' {
      n := 0;
    } else {
      var m := SlashesOf(path[1..]);
      n := m + 1;
      assert path == ['/'] + path[1..];
    }
  }

  lemma SpelledStays(lead: nat, at: Place)
    requires lead <= 2 && (lead > 0 ==> at.ups == 0)
    requires forall x :: x in at.names ==> IsDown(x) && '/' !in x
    ensures NormPath(Spelled(lead, at)) == Spelled(lead, at)
  {
    var parts := Parts(at);
    if parts == [] {
      var rest := if lead == 0 then "." else "";
      SplitWhole(rest, '/');
      assert [rest][..0] == [];
      assert Reached([rest], lead > 0) == Place(0, []) && at == Place(0, []);
      assert Spelled(lead, at) == Slashes(lead) + rest;
      NormPathSpells(lead, rest);
    } else {
      forall x | x in parts ensures '/' !in x && x != "" { }
      SplitJoin(parts, '/');
      JoinStarts(parts);
      PartsReach(at, lead > 0);
      NormPathSpells(lead, Join(parts, '/'));
    }
  }

  lemma JoinStarts(parts: seq<string>)
    requires parts != [] && forall x :: x in parts ==> '/' !in x && x != ""
    ensures Join(parts, '/') != "" && Join(parts, '/')[0] != '/'
  {
    assert parts[0] in parts && parts[0][0] in parts[0];
    assert |parts| > 1 ==> Join(parts, '/')[0] == parts[0][0];
  }

  /** The parts of a place lead to it. */
  lemma {:induction false} PartsReach(at: Place, rooted: bool)
    requires (rooted ==> at.ups == 0) && forall x :: x in at.names ==> IsDown(x)
    ensures Reached(Parts(at), rooted) == at
    decreases at.ups + |at.names|
  {
    var p := Parts(at);
    if at.names != [] {
      var front := at.(names := at.names[..|at.names| - 1]);
      assert p[..|p| - 1] == Parts(front) && p[|p| - 1] in at.names;
      PartsReach(front, rooted);
      assert at.names == front.names + [p[|p| - 1]];
    } else if at.ups > 0 {
      var front := Place(at.ups - 1, []);
      assert p[..|p| - 1] == Parts(front) && p[|p| - 1] == "..";
      PartsReach(front, rooted);
    }
  }
}
