/** poky/bitbake/lib/bb/build.py, `tasksbetween`: the tasks on the chains between two tasks of a recipe. */
module TaskChains {
  import opened Lists

  /** The tasks of a recipe in datastore order and their `deps` flags. */
  datatype Recipe = Recipe(tasks: seq<string>, deps: map<string, seq<string>>)

  /** `other` is a task that lists `task` among its dependencies. Chains end at `end`. */
  predicate Follows(r: Recipe, end: string, task: string, other: string) {
    && task != end && other != task
    && other in r.tasks && other in r.deps && task in r.deps[other]
  }

  ghost predicate IsChain(r: Recipe, end: string, p: seq<string>) {
    p != [] && forall i :: 0 < i < |p| ==> Follows(r, end, p[i - 1], p[i])
  }

  /** A chain from `task` on. */
  ghost predicate From(r: Recipe, end: string, task: string, p: seq<string>) {
    IsChain(r, end, p) && p[0] == task
  }

  /** A chain from `task` to `end`. */
  ghost predicate Between(r: Recipe, end: string, task: string, p: seq<string>) {
    From(r, end, task, p) && p[|p| - 1] == end
  }

  lemma ChainPrefixed(r: Recipe, end: string, task: string, other: string, q: seq<string>)
    requires Follows(r, end, task, other) && From(r, end, other, q)
    ensures From(r, end, task, [task] + q)
  {
  }

  lemma ChainTail(r: Recipe, end: string, task: string, p: seq<string>)
    requires From(r, end, task, p) && |p| > 1
    ensures Follows(r, end, task, p[1]) && From(r, end, p[1], p[1..]) && p == [task] + p[1..]
  {
  }

  datatype Outcome = Done | Circular(task: string, chain: seq<string>)

  /** The variables that the nested `follow_chain` shares with its own recursive calls. */
  class ChainWalk {
    const r: Recipe
    const end: string
    var chain: seq<string>
    var outtasks: seq<string>

    constructor (r: Recipe, end: string)
      ensures this.r == r && this.end == end && chain == [] && outtasks == []
    {
      this.r, this.end := r, end;
      chain, outtasks := [], [];
    }

    /** No continuation of `prefix` that starts with `task` visits a task twice. */
    ghost predicate AllDistinct(prefix: seq<string>, task: string) {
      forall q :: From(r, end, task, q) ==> NoDuplicates(prefix + q)
    }

    /** The same for continuations whose second task is among `nexts`. */
    ghost predicate DistinctVia(prefix: seq<string>, nexts: seq<string>, task: string) {
      forall o :: o in nexts && Follows(r, end, task, o) ==> AllDistinct(prefix, o)
    }

    /** `x` lies on `prefix` or after it, on a chain from `task` to the end. */
    ghost predicate OnChain(prefix: seq<string>, task: string, x: string) {
      exists q :: Between(r, end, task, q) && x in prefix + q
    }

    ghost predicate OnChainVia(prefix: seq<string>, nexts: seq<string>, task: string, x: string) {
      exists o :: o in nexts && Follows(r, end, task, o) && OnChain(prefix, o, x)
    }

    /** Which tasks a call for `task` adds, once the chain before it is `prefix`. */
    ghost predicate Adds(before: seq<string>, after: seq<string>, prefix: seq<string>, task: string) {
      && NoDuplicates(after)
      && forall x :: x in after <==> x in before || OnChain(prefix, task, x)
    }

    /** The walk below stays on one chain: the tasks so far, and the one to visit next. */
    ghost predicate Ready(task: string)
      reads this
    {
      && NoDuplicates(chain) && NoDuplicates(outtasks)
      && (forall t :: t in r.tasks ==> t in r.deps)
      && (exists t :: t in r.tasks && t != end)
      && (chain == [] || (task in r.tasks && From(r, end, chain[0], chain + [task])))
    }

    method FollowChain(task: string) returns (outcome: Outcome)
      requires Ready(task)
      modifies `chain, `outtasks
      ensures outcome.Done? ==>
        chain == old(chain) && AllDistinct(chain, task) && Adds(old(outtasks), outtasks, chain, task)
      ensures outcome.Circular? ==>
        && chain == outcome.chain && task in r.tasks + [task]
        && exists q :: From(r, end, task, q) && !NoDuplicates(old(chain) + q)
      decreases Elements(r.tasks) - Elements(chain), if chain == [] then 1 else 0
    {
      if task in chain {
        RepeatHere(task);
        return Circular(task, chain);
      }
      ghost var prefix := chain;
      chain := chain + [task];
      ExtendDistinct(prefix, task);
      for i := 0 to |r.tasks|
        invariant chain == prefix + [task]
        invariant task == end ==> Collected(old(outtasks), outtasks, chain, r.tasks[..i], task)
        invariant task != end ==>
          DistinctVia(chain, r.tasks[..i], task) && AddsVia(old(outtasks), outtasks, chain, r.tasks[..i], task)
        invariant NoDuplicates(outtasks)
      {
        var othertask := r.tasks[i];
        PrefixGrows(r.tasks, i);
        if othertask != task {
          if task == end {
            CollectChain();
            assert othertask in r.tasks[..i + 1];
          } else if task in r.deps[othertask] {
            ghost var before := outtasks;
            ChainExtended(prefix, task, othertask);
            ChainShrinks(prefix, task, othertask);
            outcome := FollowChain(othertask);
            if outcome.Circular? {
              RepeatBelow(prefix, task, othertask);
              return;
            }
            ViaGrows(old(outtasks), before, outtasks, chain, i, task);
          }
        }
      }
      chain := chain[..|chain| - 1];
      assert r.tasks[..|r.tasks|] == r.tasks;
      DistinctFrom(chain, task);
      AddsFrom(old(outtasks), outtasks, chain, task);
      outcome := Done;
    }

    ghost predicate Collected(before: seq<string>, after: seq<string>, chain: seq<string>, nexts: seq<string>, task: string) {
      forall x :: x in after <==> x in before || (x in chain && exists o :: o in nexts && o != task)
    }

    ghost predicate AddsVia(before: seq<string>, after: seq<string>, prefix: seq<string>, nexts: seq<string>, task: string) {
      forall x :: x in after <==> x in before || OnChainVia(prefix, nexts, task, x)
    }

    method CollectChain()
      requires NoDuplicates(outtasks)
      modifies `outtasks
      ensures NoDuplicates(outtasks)
      ensures forall x :: x in outtasks <==> x in old(outtasks) || x in chain
    {
      for j := 0 to |chain|
        invariant NoDuplicates(outtasks)
        invariant forall x :: x in outtasks <==> x in old(outtasks) || x in chain[..j]
      {
        var ctask := chain[j];
        PrefixGrows(chain, j);
        if ctask !in outtasks {
          outtasks := outtasks + [ctask];
        }
      }
      assert chain[..|chain|] == chain;
    }

    lemma RepeatHere(task: string)
      requires task in chain
      ensures exists q :: From(r, end, task, q) && !NoDuplicates(chain + q)
    {
      var k :| 0 <= k < |chain| && chain[k] == task;
      assert From(r, end, task, [task]);
      assert (chain + [task])[k] == (chain + [task])[|chain|];
    }

    lemma ExtendDistinct(prefix: seq<string>, task: string)
      requires NoDuplicates(prefix) && task !in prefix
      ensures NoDuplicates(prefix + [task])
    {
    }

    lemma ChainExtended(prefix: seq<string>, task: string, other: string)
      requires prefix == [] || From(r, end, prefix[0], prefix + [task])
      requires Follows(r, end, task, other)
      ensures From(r, end, (prefix + [task])[0], prefix + [task] + [other])
    {
    }

    lemma ChainShrinks(prefix: seq<string>, task: string, other: string)
      requires task !in prefix && (prefix == [] || task in r.tasks)
      ensures Elements(r.tasks) - Elements(prefix + [task]) <= Elements(r.tasks) - Elements(prefix)
      ensures prefix != [] ==> Elements(r.tasks) - Elements(prefix + [task]) < Elements(r.tasks) - Elements(prefix)
    {
      assert Elements(prefix + [task]) == Elements(prefix) + {task};
      if prefix != [] {
        assert task in Elements(r.tasks) - Elements(prefix);
      }
    }

    lemma RepeatBelow(prefix: seq<string>, task: string, other: string)
      requires Follows(r, end, task, other)
      requires exists q :: From(r, end, other, q) && !NoDuplicates(prefix + [task] + q)
      ensures exists q :: From(r, end, task, q) && !NoDuplicates(prefix + q)
    {
      var q :| From(r, end, other, q) && !NoDuplicates(prefix + [task] + q);
      ChainPrefixed(r, end, task, other, q);
      assert prefix + [task] + q == prefix + ([task] + q);
    }

    lemma ViaGrows(before: seq<string>, middle: seq<string>, after: seq<string>, prefix: seq<string>, i: nat, task: string)
      requires i < |r.tasks| && Follows(r, end, task, r.tasks[i])
      requires DistinctVia(prefix, r.tasks[..i], task) && AddsVia(before, middle, prefix, r.tasks[..i], task)
      requires AllDistinct(prefix, r.tasks[i]) && Adds(middle, after, prefix, r.tasks[i])
      ensures DistinctVia(prefix, r.tasks[..i + 1], task) && AddsVia(before, after, prefix, r.tasks[..i + 1], task)
    {
    }

    lemma DistinctFrom(prefix: seq<string>, task: string)
      requires NoDuplicates(prefix + [task])
      requires task != end ==> DistinctVia(prefix + [task], r.tasks, task)
      ensures AllDistinct(prefix, task)
    {
      forall q | From(r, end, task, q) ensures NoDuplicates(prefix + q) {
        if |q| == 1 {
          assert q == [task];
        } else {
          ChainTail(r, end, task, q);
          assert AllDistinct(prefix + [task], q[1]);
          assert prefix + q == prefix + [task] + q[1..];
        }
      }
    }

    lemma AddsFrom(before: seq<string>, after: seq<string>, prefix: seq<string>, task: string)
      requires NoDuplicates(after) && exists t :: t in r.tasks && t != end
      requires task == end ==> Collected(before, after, prefix + [task], r.tasks, task)
      requires task != end ==> AddsVia(before, after, prefix + [task], r.tasks, task)
      ensures Adds(before, after, prefix, task)
    {
      forall x ensures OnChain(prefix, task, x) <==>
          if task == end then x in prefix + [task] else OnChainVia(prefix + [task], r.tasks, task, x)
      {
        if task == end {
          EndIsLast(prefix, task, x);
        } else {
          OneStepMore(prefix, task, x);
        }
      }
    }

    lemma EndIsLast(prefix: seq<string>, task: string, x: string)
      requires task == end
      ensures OnChain(prefix, task, x) <==> x in prefix + [task]
    {
      assert Between(r, end, task, [task]);
      if OnChain(prefix, task, x) {
        var q :| Between(r, end, task, q) && x in prefix + q;
        if |q| > 1 {
          ChainTail(r, end, task, q);
        }
        assert q == [task];
      }
    }

    lemma OneStepMore(prefix: seq<string>, task: string, x: string)
      requires task != end
      ensures OnChain(prefix, task, x) <==> OnChainVia(prefix + [task], r.tasks, task, x)
    {
      if OnChain(prefix, task, x) {
        var q :| Between(r, end, task, q) && x in prefix + q;
        assert |q| > 1;
        ChainTail(r, end, task, q);
        assert Between(r, end, q[1], q[1..]);
        assert prefix + q == prefix + [task] + q[1..];
        assert OnChain(prefix + [task], q[1], x);
      }
      if OnChainVia(prefix + [task], r.tasks, task, x) {
        var o :| o in r.tasks && Follows(r, end, task, o) && OnChain(prefix + [task], o, x);
        var q :| Between(r, end, o, q) && x in prefix + [task] + q;
        ChainPrefixed(r, end, task, o, q);
        assert Between(r, end, task, [task] + q);
        assert prefix + ([task] + q) == prefix + [task] + q;
      }
    }
  }

  /** `x` is on a chain from `start` to `end`, on which `end` comes only last. */
  ghost predicate LiesBetween(r: Recipe, start: string, end: string, x: string) {
    exists q :: Between(r, end, start, q) && x in q
  }

  /** Some task that `start` leads to without passing `end` depends on itself through others. */
  ghost predicate HasCycle(r: Recipe, start: string, end: string) {
    exists w, c :: From(r, end, start, w) && IsCycle(r, end, c) && w[|w| - 1] == c[0]
  }

  ghost predicate IsCycle(r: Recipe, end: string, c: seq<string>) {
    IsChain(r, end, c) && |c| >= 3 && c[0] == c[|c| - 1]
  }

  method TasksBetween(taskStart: string, taskEnd: string, r: Recipe) returns (outcome: Outcome, outtasks: seq<string>)
    requires forall t :: t in r.tasks ==> t in r.deps
    requires exists t :: t in r.tasks && t != taskEnd
    ensures outcome.Circular? <==> HasCycle(r, taskStart, taskEnd)
    ensures outcome.Done? ==> NoDuplicates(outtasks) && forall x :: x in outtasks <==> LiesBetween(r, taskStart, taskEnd, x)
  {
    var walk := new ChainWalk(r, taskEnd);
    outcome := walk.FollowChain(taskStart);
    outtasks := walk.outtasks;
    CycleIsRepeat(r, taskStart, taskEnd);
    if outcome.Done? {
      forall q | From(r, taskEnd, taskStart, q) ensures NoDuplicates(q) {
        assert NoDuplicates([] + q);
        assert [] + q == q;
      }
      forall x ensures x in outtasks <==> LiesBetween(r, taskStart, taskEnd, x) {
        SameOnChain(walk, taskStart, x);
      }
    } else {
      ghost var q :| From(r, taskEnd, taskStart, q) && !NoDuplicates([] + q);
      assert [] + q == q;
    }
  }

  lemma SameOnChain(walk: ChainWalk, start: string, x: string)
    ensures walk.OnChain([], start, x) <==> LiesBetween(walk.r, start, walk.end, x)
  {
  }

  /** A chain that visits a task twice is a way to a cycle, and the other way round. */
  lemma CycleIsRepeat(r: Recipe, start: string, end: string)
    ensures HasCycle(r, start, end) <==> exists q :: From(r, end, start, q) && !NoDuplicates(q)
  {
    if HasCycle(r, start, end) {
      var w, c :| From(r, end, start, w) && IsCycle(r, end, c) && w[|w| - 1] == c[0];
      CycleAppended(r, start, end, w, c);
    }
    if exists q :: From(r, end, start, q) && !NoDuplicates(q) {
      var q :| From(r, end, start, q) && !NoDuplicates(q);
      var i, j :| 0 <= i < j < |q| && q[i] == q[j];
      assert Follows(r, end, q[i], q[i + 1]);
      SubChain(r, end, q, i, j);
      SubChain(r, end, q, 0, i);
      assert IsCycle(r, end, q[i..j + 1]);
      assert From(r, end, start, q[0..i + 1]);
    }
  }

  lemma CycleAppended(r: Recipe, start: string, end: string, w: seq<string>, c: seq<string>)
    requires From(r, end, start, w) && IsCycle(r, end, c) && w[|w| - 1] == c[0]
    ensures From(r, end, start, w + c[1..]) && !NoDuplicates(w + c[1..])
  {
    var q := w + c[1..];
    forall i | 0 < i < |q| ensures Follows(r, end, q[i - 1], q[i]) {
      if i >= |w| {
        assert Follows(r, end, c[i - |w|], c[i - |w| + 1]);
      }
    }
    assert q[|w| - 1] == q[|q| - 1];
  }

  lemma SubChain(r: Recipe, end: string, q: seq<string>, i: nat, j: nat)
    requires IsChain(r, end, q) && i <= j < |q|
    ensures IsChain(r, end, q[i..j + 1])
  {
  }
}
