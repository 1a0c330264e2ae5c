/** What a base hash depends on, and what it can tell apart (data.py, `generate_dependency_hash`). */
module TaskHashes {
  import opened Wrappers
  import opened Lists
  import opened NameOrder
  import opened Reachability
  import opened Dependencies

  /** Two datastores that agree on one name, up to ignored names among its dependencies. */
  ghost predicate AgreeOn(d: Datastore, e: Datastore, ignored: set<string>, v: string) {
    d(v).deps - ignored == e(v).deps - ignored && d(v).value == e(v).value
  }

  ghost predicate SameMentions(d: Datastore, e: Datastore, ignored: set<string>, task: string) {
    && d(task).deps - ignored == e(task).deps - ignored
    && forall v :: DependsOn(d, ignored, task, v) ==> d(v).deps - ignored == e(v).deps - ignored
  }

  lemma SameClosure(d: Datastore, e: Datastore, ignored: set<string>, task: string, ds: seq<string>, es: seq<string>)
    requires SameMentions(d, e, ignored, task)
    requires IsTaskDeps(d, ignored, task, ds) && IsTaskDeps(e, ignored, task, es)
    ensures ds == es
  {
    var g, h := Mentions(d, ignored), Mentions(e, ignored);
    SameWalk(d, e, ignored, task);
    forall u | Reaches(g, task, u) ensures Walkable(g, u) == Walkable(h, u) {
      assert DependsOn(d, ignored, task, u);
      SameWalk(d, e, ignored, u);
    }
    forall v ensures v in ds <==> v in es {
      ReachesDependsOnClosure(g, h, task, v);
    }
    assert Elements(ds) == Elements(es);
    AscendingUnique(ds, es);
  }

  lemma SameWalk(d: Datastore, e: Datastore, ignored: set<string>, v: string)
    requires d(v).deps - ignored == e(v).deps - ignored
    ensures Walkable(Mentions(d, ignored), v) == Walkable(Mentions(e, ignored), v)
  {
    forall w ensures w in Walkable(Mentions(d, ignored), v) <==> w in Walkable(Mentions(e, ignored), v) {
      assert w in d(v).deps - ignored <==> w in e(v).deps - ignored;
    }
  }

  /** Only the task and its closure matter: whatever else two datastores hold, and whatever order
      or task list their tables were built in, the closure and the base hash come out the same. */
  lemma HashDependsOnClosureOnly(d: Datastore, e: Datastore, ignored: set<string>, sha256: string -> string, task: string,
                                 ds: seq<string>, dh: string, es: seq<string>, eh: string)
    requires AgreeOn(d, e, ignored, task)
    requires forall v :: DependsOn(d, ignored, task, v) ==> AgreeOn(d, e, ignored, v)
    requires IsBaseHash(d, ignored, sha256, task, ds, dh)
    requires IsBaseHash(e, ignored, sha256, task, es, eh)
    ensures ds == es && Pieces(d, task, ds) == Pieces(e, task, es) && dh == eh
  {
    forall v | DependsOn(d, ignored, task, v) ensures d(v).deps - ignored == e(v).deps - ignored {
      assert AgreeOn(d, e, ignored, v);
    }
    SameClosure(d, e, ignored, task, ds, es);
    forall v | v in ds ensures d(v).value == e(v).value {
      assert AgreeOn(d, e, ignored, v);
    }
    SameAllPieces(d, e, ds);
  }

  lemma {:induction false} SameAllPieces(d: Datastore, e: Datastore, names: seq<string>)
    requires forall v :: v in names ==> d(v).value == e(v).value
    ensures AllPieces(d, names) == AllPieces(e, names)
  {
    if names != [] {
      SameAllPieces(d, e, names[..|names| - 1]);
    }
  }

  /** Neither the order of the task list nor what earlier tasks pruned shows in a task's results. */
  lemma TaskOrderIsIrrelevant(d: Datastore, ignored: set<string>, fn: string, sha256: string -> string,
                              tasks1: seq<string>, deps1: map<string, seq<string>>, hash1: map<string, string>,
                              tasks2: seq<string>, deps2: map<string, seq<string>>, hash2: map<string, string>, t: string)
    requires Hashed(d, ignored, fn, sha256, tasks1, deps1, hash1)
    requires Hashed(d, ignored, fn, sha256, tasks2, deps2, hash2)
    requires t in tasks1 && t in tasks2
    ensures deps1[t] == deps2[t] && hash1[fn + ":" + t] == hash2[fn + ":" + t]
  {
    HashDependsOnClosureOnly(d, d, ignored, sha256, t, deps1[t], hash1[fn + ":" + t], deps2[t], hash2[fn + ":" + t]);
  }

  // ---- what the hashed text tells apart ----

  function Text(value: Option<string>): string {
    match value case None => "" case Some(text) => text
  }

  lemma {:induction false} JoinAppend(a: seq<string>, b: seq<string>)
    ensures Join(a + b) == Join(a) + Join(b)
  {
    if a == [] {
      assert a + b == b;
    } else {
      JoinAppend(a[1..], b);
      assert (a + b)[1..] == a[1..] + b && (a + b)[0] == a[0];
    }
  }

  /** The hashed text, as one string. */
  function Preimage(d: Datastore, task: string, alldeps: seq<string>): string {
    Join(Pieces(d, task, alldeps))
  }

  function DepsText(d: Datastore, names: seq<string>): string { Join(AllPieces(d, names)) }

  lemma OwnText(d: Datastore, v: string)
    ensures Join(OwnPieces(d, v)) == Text(d(v).value)
  {
  }

  lemma PreimageSplits(d: Datastore, task: string, alldeps: seq<string>)
    ensures Preimage(d, task, alldeps) == Text(d(task).value) + DepsText(d, alldeps)
  {
    JoinAppend(OwnPieces(d, task), AllPieces(d, alldeps));
    OwnText(d, task);
  }

  lemma DepsTextSplits(d: Datastore, names: seq<string>)
    requires names != []
    ensures DepsText(d, names) == DepsText(d, names[..|names| - 1]) + (names[|names| - 1] + Text(d(names[|names| - 1]).value))
  {
    var last := names[|names| - 1];
    JoinAppend(AllPieces(d, names[..|names| - 1]), DepPieces(d, last));
    JoinAppend([last], OwnPieces(d, last));
    OwnText(d, last);
    assert Join([last]) == last + Join([]) == last;
  }

  ghost predicate DifferOnlyAt(d: Datastore, e: Datastore, v: string, names: set<string>) {
    forall u :: u in names && u != v ==> d(u).value == e(u).value
  }

  lemma {:induction false} DepsTextLength(d: Datastore, e: Datastore, v: string, names: seq<string>)
    requires NoDuplicates(names) && DifferOnlyAt(d, e, v, Elements(names))
    ensures |DepsText(d, names)| - |DepsText(e, names)| ==
            if v in names then |Text(d(v).value)| - |Text(e(v).value)| else 0
  {
    if names != [] {
      var front, last := names[..|names| - 1], names[|names| - 1];
      assert names == front + [last];
      assert last in Elements(names);
      forall u | u in Elements(front) ensures u in Elements(names) { }
      DepsTextLength(d, e, v, front);
      DepsTextSplits(d, names);
      DepsTextSplits(e, names);
    }
  }

  lemma SameSplit(a: string, b: string, c: string, d: string)
    requires a + b == c + d && |b| == |d|
    ensures a == c && b == d
  {
    assert |a| == |c|;
    assert a == (a + b)[..|a|] && c == (c + d)[..|c|];
    assert b == (a + b)[|a|..] && d == (c + d)[|c|..];
  }

  lemma {:induction false} SameDepsText(d: Datastore, e: Datastore, v: string, names: seq<string>)
    requires NoDuplicates(names) && DifferOnlyAt(d, e, v, Elements(names)) && v in names
    requires |Text(d(v).value)| == |Text(e(v).value)|
    requires DepsText(d, names) == DepsText(e, names)
    ensures Text(d(v).value) == Text(e(v).value)
  {
    var front, last := names[..|names| - 1], names[|names| - 1];
    assert names == front + [last];
    assert last in Elements(names);
    DepsTextSplits(d, names);
    DepsTextSplits(e, names);
    SameSplit(DepsText(d, front), last + Text(d(last).value), DepsText(e, front), last + Text(e(last).value));
    if last == v {
      SameSplit(last, Text(d(v).value), last, Text(e(v).value));
    } else {
      forall u | u in Elements(front) ensures u in Elements(names) { }
      SameDepsText(d, e, v, front);
    }
  }

  /** Changing the value of a single name the hash covers changes the hashed text, except that
      a missing value and an empty one read the same. */
  lemma SingleChangeIsSeen(d: Datastore, e: Datastore, v: string, task: string, alldeps: seq<string>)
    requires Ascending(alldeps) && (v == task || v in alldeps)
    requires DifferOnlyAt(d, e, v, {task} + Elements(alldeps))
    ensures Preimage(d, task, alldeps) == Preimage(e, task, alldeps) <==> Text(d(v).value) == Text(e(v).value)
  {
    forall i, j | 0 <= i < j < |alldeps| ensures alldeps[i] != alldeps[j] {
      BelowTrichotomy(alldeps[i], alldeps[j]);
    }
    PreimageSplits(d, task, alldeps);
    PreimageSplits(e, task, alldeps);
    DepsTextLength(d, e, v, alldeps);
    if Text(d(v).value) == Text(e(v).value) {
      SameTexts(d, e, alldeps);
    } else if Preimage(d, task, alldeps) == Preimage(e, task, alldeps) {
      SameSplit(Text(d(task).value), DepsText(d, alldeps), Text(e(task).value), DepsText(e, alldeps));
      if v != task {
        SameDepsText(d, e, v, alldeps);
      }
    }
  }

  lemma {:induction false} SameTexts(d: Datastore, e: Datastore, names: seq<string>)
    requires forall u :: u in names ==> Text(d(u).value) == Text(e(u).value)
    ensures DepsText(d, names) == DepsText(e, names)
  {
    if names != [] {
      SameTexts(d, e, names[..|names| - 1]);
      DepsTextSplits(d, names);
      DepsTextSplits(e, names);
    }
  }

  // ---- when the hashed text determines the values ----

  ghost predicate SameDeps(d: Datastore, e: Datastore) { forall v :: e(v).deps == d(v).deps }

  ghost predicate SameValues(d: Datastore, e: Datastore, names: set<string>) {
    forall v :: v in names ==> Text(d(v).value) == Text(e(v).value)
  }

  function Revalued(d: Datastore, u: string, x: string, v: string, y: string): Datastore {
    w => if w == u then Built(d(w).deps, Some(x)) else if w == v then Built(d(w).deps, Some(y)) else d(w)
  }

  /** The hashed text of a task with this closure determines every covered value, whatever the values are,
      exactly if the closure has no name but the task's own. */
  lemma TextDeterminesValuesIff(d: Datastore, ignored: set<string>, task: string, alldeps: seq<string>)
    requires IsTaskDeps(d, ignored, task, alldeps)
    ensures (forall e, f :: SameDeps(d, e) && SameDeps(d, f) && Preimage(e, task, alldeps) == Preimage(f, task, alldeps) ==>
              SameValues(e, f, {task} + Elements(alldeps)))
      <==> forall v :: v in alldeps ==> v == task
  {
    hide Preimage, Text, SameDeps, Below;
    if v :| v in alldeps && v != task {
      var e, f := Collide(d, task, alldeps);
      assert task in {task} + Elements(alldeps);
    } else {
      forall e, f | SameDeps(d, e) && SameDeps(d, f) && Preimage(e, task, alldeps) == Preimage(f, task, alldeps)
        ensures SameValues(e, f, {task} + Elements(alldeps))
      {
        SingleChangeIsSeen(e, f, task, task, alldeps);
      }
    }
  }

  /** Any task with another name in its closure has two sets of values with one hashed text; they differ in
      the task's value and in that of its last dependency only. */
  lemma Collide(d: Datastore, task: string, alldeps: seq<string>) returns (e: Datastore, f: Datastore)
    requires Ascending(alldeps) && exists v :: v in alldeps && v != task
    ensures SameDeps(d, e) && SameDeps(d, f) && Preimage(e, task, alldeps) == Preimage(f, task, alldeps)
    ensures Text(e(task).value) != Text(f(task).value)
  {
    hide Preimage, Text, SameDeps;
    forall i, j | 0 <= i < j < |alldeps| ensures alldeps[i] != alldeps[j] { BelowTrichotomy(alldeps[i], alldeps[j]); }
    hide Below;
    var n := |alldeps| - 1;
    if alldeps[n] != task {
      e, f := CollideLast(d, task, alldeps[..n], alldeps[n]);
      assert alldeps == alldeps[..n] + [alldeps[n]];
    } else {
      var v :| v in alldeps && v != task;
      assert n > 0;
      e, f := CollideBefore(d, task, alldeps[..n - 1], alldeps[n - 1]);
      assert alldeps == alldeps[..n - 1] + [alldeps[n - 1]] + [task];
    }
  }

  lemma RevaluedAt(d: Datastore, u: string, x: string, v: string, y: string)
    requires u != v
    ensures var e := Revalued(d, u, x, v, y);
            && SameDeps(d, e) && Text(e(u).value) == x && Text(e(v).value) == y
            && forall w :: w != u && w != v ==> e(w).value == d(w).value
  {
  }

  lemma CollideLast(d: Datastore, task: string, front: seq<string>, b: string) returns (e: Datastore, f: Datastore)
    requires b != task && b !in front
    ensures SameDeps(d, e) && SameDeps(d, f) && Preimage(e, task, front + [b]) == Preimage(f, task, front + [b])
    ensures Text(e(task).value) != Text(f(task).value)
  {
    var d0 := Revalued(d, task, "", b, "");
    var p := DepsText(d0, front) + b;
    var x := p + "a";
    f := Revalued(d, task, x, b, "");
    var q := DepsText(f, front) + b;
    e := Revalued(d, task, "", b, "a" + q);
    hide Revalued, SameDeps, Text, DepsText, Preimage;
    RevaluedAt(d, task, "", b, "");
    RevaluedAt(d, task, x, b, "");
    RevaluedAt(d, task, "", b, "a" + q);
    SameTexts(e, d0, front);
    TextWithLast(e, task, front, b);
    TextWithLast(f, task, front, b);
    SameShortText(p, q);
  }

  lemma SameShortText(p: string, q: string)
    ensures "" + (p + ("a" + q)) == (p + "a") + (q + "")
  {
  }

  lemma CollideBefore(d: Datastore, task: string, front: seq<string>, b: string) returns (e: Datastore, f: Datastore)
    requires b != task && b !in front && task !in front
    ensures SameDeps(d, e) && SameDeps(d, f)
    ensures Preimage(e, task, front + [b] + [task]) == Preimage(f, task, front + [b] + [task])
    ensures Text(e(task).value) != Text(f(task).value)
  {
    hide Revalued, SameDeps, Text, DepsText, Preimage;
    var p := DepsText(d, front) + b;
    var x := p + ("a" + task);
    var y := "a" + task + p + task + p + "a";
    e, f := Revalued(d, task, "", b, y), Revalued(d, task, x, b, "");
    RevaluedAt(d, task, "", b, y);
    RevaluedAt(d, task, x, b, "");
    SameTexts(e, d, front);
    SameTexts(f, d, front);
    TextWithTask(e, task, front, b);
    TextWithTask(f, task, front, b);
    SameLongText(p, task);
  }

  lemma SameLongText(p: string, t: string)
    ensures "" + ((p + ("a" + t + p + t + p + "a")) + (t + "")) == (p + ("a" + t)) + ((p + "") + (t + (p + ("a" + t))))
  {
  }

  lemma TextWithTask(d: Datastore, task: string, front: seq<string>, b: string)
    ensures Preimage(d, task, front + [b] + [task]) ==
      Text(d(task).value) + ((DepsText(d, front) + b + Text(d(b).value)) + (task + Text(d(task).value)))
  {
    var names := front + [b] + [task];
    hide DepsText, Preimage, Text;
    TextWithLast(d, task, front, b);
    PreimageSplits(d, task, names);
    DepsTextSplits(d, names);
    assert names[..|names| - 1] == front + [b];
  }

  lemma TextWithLast(d: Datastore, task: string, front: seq<string>, b: string)
    ensures DepsText(d, front + [b]) == DepsText(d, front) + b + Text(d(b).value)
    ensures Preimage(d, task, front + [b]) == Text(d(task).value) + (DepsText(d, front) + b + Text(d(b).value))
  {
    PreimageSplits(d, task, front + [b]);
    DepsTextSplits(d, front + [b]);
    assert (front + [b])[..|front|] == front;
    AppendAssociates(DepsText(d, front), b, Text(d(b).value));
  }

  /** A task `t` that mentions the two variables `a` and `ab`. */
  function TwoVariables(a: string, ab: string): Datastore {
    v => if v == "t" then Built({"a", "ab"}, None) else Built({}, if v == "a" then Some(a) else Some(ab))
  }

  /** Two simultaneous changes can cancel out: the pieces are joined without separators. */
  lemma TwoChangesCanCollide()
    ensures var d, e, deps := TwoVariables("", "ab"), TwoVariables("ab", ""), ["a", "ab"];
            && IsTaskDeps(d, {}, "t", deps) && IsTaskDeps(e, {}, "t", deps)
            && Pieces(d, "t", deps) != Pieces(e, "t", deps)
            && Preimage(d, "t", deps) == Preimage(e, "t", deps)
  {
    TwoDeps(TwoVariables("", "ab"));
    TwoDeps(TwoVariables("ab", ""));
    TwoPieces("", "ab");
    TwoPieces("ab", "");
    assert Pieces(TwoVariables("", "ab"), "t", ["a", "ab"])[1] == "";
    assert Pieces(TwoVariables("ab", ""), "t", ["a", "ab"])[1] == "ab";
  }

  lemma TwoPieces(x: string, y: string)
    ensures Pieces(TwoVariables(x, y), "t", ["a", "ab"]) == ["a", x, "ab", y]
    ensures Preimage(TwoVariables(x, y), "t", ["a", "ab"]) == "a" + x + "ab" + y
  {
    var d := TwoVariables(x, y);
    TwoTexts(d, x, y);
    hide Preimage, Join;
    assert ["a", "ab"][..1] == ["a"] && ["a"][..0] == [];
    assert AllPieces(d, ["a"]) == ["a", x];
  }

  lemma TwoTexts(d: Datastore, x: string, y: string)
    requires d("t").value == None && d("a").value == Some(x) && d("ab").value == Some(y)
    ensures Preimage(d, "t", ["a", "ab"]) == "a" + x + "ab" + y
  {
    PreimageSplits(d, "t", ["a", "ab"]);
    DepsTextSplits(d, ["a", "ab"]);
    DepsTextSplits(d, ["a"]);
    assert ["a", "ab"][..1] == ["a"] && ["a"][..0] == [];
    assert DepsText(d, []) == "";
    hide Preimage, DepsText, AllPieces;
    assert "a" + x + "ab" + y == ("a" + x) + ("ab" + y);
  }

  lemma TwoDeps(d: Datastore)
    requires d("t").deps == {"a", "ab"} && forall v :: v != "t" ==> d(v).deps == {}
    ensures IsTaskDeps(d, {}, "t", ["a", "ab"])
  {
    var g := Mentions(d, {});
    assert ClosedFrom(g, "t", {"a", "ab"});
    forall v ensures v in ["a", "ab"] <==> DependsOn(d, {}, "t", v) {
      if v in ["a", "ab"] {
        ReachesFirst(g, "t", v);
      } else if Reaches(g, "t", v) {
        ReachesIsLeast(g, "t", {"a", "ab"}, v);
      }
    }
    assert Below("a", "ab") by { assert "ab"[1..] == "b" && "a"[1..] == ""; }
  }
}
