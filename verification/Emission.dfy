/** poky/bitbake/lib/bb/data.py: writing out a function and all functions of its language that it
    leads to (`emit_func` for shell, `emit_func_python` for Python). */
module Emission {
  import opened Lists
  import opened NameOrder
  import opened Reachability

  /** The flags and parse results that the emitters read for a name. `calls` is what the code
      parser finds in its body, `vardeps` the words of the flag. */
  datatype Functions = Functions(func: string -> bool, python: string -> bool,
                                 calls: string -> set<string>, vardeps: string -> set<string>)

  function Leads(d: Functions, name: string): set<string> {
    d.calls(name) + d.vardeps(name)
  }

  /** Chains of shell functions. */
  function ShellGraph(d: Functions): Graph {
    Graph(v => Leads(d, v), v => d.func(v) && !d.python(v))
  }

  /** Chains of Python functions. */
  function PythonGraph(d: Functions): Graph {
    Graph(v => Leads(d, v), v => d.func(v) && d.python(v))
  }

  /** The text being written; only the names of the emitted functions are kept. */
  class Output {
    var emitted: seq<string>

    constructor ()
      ensures emitted == []
    {
      emitted := [];
    }
  }

  /** After the root, exactly the functions reachable through functions of the language, each once. */
  ghost predicate EmitsReachable(g: Graph, root: string, emitted: seq<string>) {
    && emitted != [] && emitted[0] == root
    && NoDuplicates(emitted[1..])
    && forall v :: v in emitted[1..] <==> Reaches(g, root, v)
  }

  /** The members of a list that may be walked through, in order. */
  function Walked(g: Graph, names: seq<string>): (w: seq<string>)
    ensures forall v :: v in w <==> v in names && g.ok(v)
    ensures NoDuplicates(names) ==> NoDuplicates(w)
  {
    if names == [] then []
    else
      var last, w := names[|names| - 1], Walked(g, names[..|names| - 1]);
      assert forall i :: 0 <= i < |names| - 1 ==> names[i] == names[..|names| - 1][i];
      assert names == names[..|names| - 1] + [last];
      if g.ok(last) then w + [last] else w
  }

  ghost function NextRound(g: Graph, round: set<string>): set<string> {
    set u, v | u in round && g.ok(u) && v in g.next(u) :: v
  }

  lemma NextRoundKnown(g: Graph, universe: set<string>, round: set<string>)
    requires ClosedUniverse(g, universe) && round <= universe
    ensures NextRound(g, round) <= universe
  {
  }

  /** The one order in which the shell emitter writes: round by round, sorted within a round. */
  ghost function RoundOrder(g: Graph, universe: set<string>, seen: set<string>, pending: set<string>): seq<string>
    requires pending <= universe && pending !! seen && ClosedUniverse(g, universe)
    decreases universe - seen, pending
  {
    if pending == {} then []
    else
      MeasureDrops(universe, seen, pending);
      NextRoundKnown(g, universe, pending);
      Walked(g, Sorted(pending)) + RoundOrder(g, universe, seen + pending, NextRound(g, pending) - (seen + pending))
  }

  /** The round order lists exactly what is reachable and not yet entered, each name once. */
  lemma {:induction false} RoundOrderIsExact(g: Graph, root: string, universe: set<string>, seen: set<string>, pending: set<string>)
    requires ClosedUniverse(g, universe) && pending <= universe && pending !! seen
    requires Swept(g, root, seen, {}, pending)
    ensures NoDuplicates(RoundOrder(g, universe, seen, pending))
    ensures forall v :: v in RoundOrder(g, universe, seen, pending) <==> v !in seen && Reaches(g, root, v)
    decreases universe - seen, pending
  {
    if pending == {} {
      SweepEnds(g, root, seen);
    } else {
      MeasureDrops(universe, seen, pending);
      NextRoundKnown(g, universe, pending);
      RoundStarts(g, root, seen, pending, pending);
      RoundExpands(g, root, seen + pending, pending);
      var later := NextRound(g, pending) - (seen + pending);
      RoundEnds(g, root, seen + pending, NextRound(g, pending));
      RoundOrderIsExact(g, root, universe, seen + pending, later);
      var now := Walked(g, Sorted(pending));
      InSorted(pending);
      JoinDistinct(now, RoundOrder(g, universe, seen + pending, later));
    }
  }

  lemma InSorted(names: set<string>)
    ensures forall v :: v in Sorted(names) <==> v in names
  {
  }

  lemma RoundExpands(g: Graph, root: string, seen: set<string>, round: set<string>)
    requires Swept(g, root, seen, round, {})
    ensures Swept(g, root, seen, {}, NextRound(g, round))
  {
    var pending := NextRound(g, round);
    forall v | v in pending && g.ok(v) ensures Reaches(g, root, v) {
      var u :| u in round && g.ok(u) && v in g.next(u);
      ReachesNext(g, root, u, v);
    }
    forall u | u in seen && g.ok(u) ensures Walkable(g, u) <= seen + pending {
    }
  }

  lemma NextRoundGrows(g: Graph, round: set<string>, bigger: set<string>, v: string)
    requires bigger == round + {v}
    ensures NextRound(g, bigger) == if g.ok(v) then NextRound(g, round) + g.next(v) else NextRound(g, round)
  {
  }

  method EmitFunc(d: Functions, func: string, o: Output, ghost universe: set<string>)
    requires ClosedUniverse(ShellGraph(d), universe) && Leads(d, func) <= universe
    modifies o
    ensures o.emitted == old(o.emitted) + [func] + RoundOrder(ShellGraph(d), universe, {}, Leads(d, func))
  {
    ghost var g, start := ShellGraph(d), o.emitted;
    assert g.next(func) == Leads(d, func);
    ghost var whole := RoundOrder(g, universe, {}, Leads(d, func));
    o.emitted := o.emitted + [func];
    var newdeps := d.calls(func);
    newdeps := newdeps + d.vardeps(func);
    var seen := {};
    ghost var out := [];
    while newdeps != {}
      invariant newdeps !! seen && newdeps <= universe
      invariant o.emitted == start + [func] + out
      invariant whole == out + RoundOrder(g, universe, seen, newdeps)
      decreases universe - seen, newdeps
    {
      var deps := newdeps;
      MeasureDrops(universe, seen, deps);
      NextRoundKnown(g, universe, deps);
      AppendAssociates(out, Walked(g, Sorted(deps)),
                       RoundOrder(g, universe, seen + deps, NextRound(g, deps) - (seen + deps)));
      var order := SortNames(deps);
      newdeps := EmitRound(d, o, order);
      AppendAssociates(start + [func], out, Walked(g, order));
      out := out + Walked(g, order);
      seen := seen + deps;
      newdeps := newdeps - seen;
    }
  }

  /** What the shell emitter writes is the root and then each reachable shell function once. */
  lemma EmitFuncIsExact(d: Functions, func: string, universe: set<string>)
    requires ClosedUniverse(ShellGraph(d), universe) && Leads(d, func) <= universe
    ensures EmitsReachable(ShellGraph(d), func, [func] + RoundOrder(ShellGraph(d), universe, {}, Leads(d, func)))
  {
    var whole := RoundOrder(ShellGraph(d), universe, {}, Leads(d, func));
    SweepStarts(ShellGraph(d), func, Leads(d, func));
    RoundOrderIsExact(ShellGraph(d), func, universe, {}, Leads(d, func));
    assert ([func] + whole)[1..] == whole;
  }

  /** One round of the shell emitter, in the given order. */
  method EmitRound(d: Functions, o: Output, order: seq<string>)
    returns (newdeps: set<string>)
    modifies o
    ensures o.emitted == old(o.emitted) + Walked(ShellGraph(d), order)
    ensures newdeps == NextRound(ShellGraph(d), Elements(order))
  {
    ghost var g := ShellGraph(d);
    newdeps := {};
    for i := 0 to |order|
      invariant o.emitted == old(o.emitted) + Walked(g, order[..i])
      invariant newdeps == NextRound(g, Elements(order[..i]))
    {
      var dep := order[i];
      PrefixGrows(order, i);
      NextRoundGrows(g, Elements(order[..i]), Elements(order[..i + 1]), dep);
      assert order[..i + 1][..i] == order[..i];
      AppendAssociates(old(o.emitted), Walked(g, order[..i]), [dep]);
      if d.func(dep) && !d.python(dep) {
        o.emitted := o.emitted + [dep];
        newdeps := newdeps + d.calls(dep);
        newdeps := newdeps + d.vardeps(dep);
      }
    }
    assert order[..|order|] == order;
  }

  lemma WholeRound(g: Graph, root: string, universe: set<string>, seen: set<string>, round: set<string>)
    requires ClosedUniverse(g, universe) && round <= universe && round !! seen
    requires Swept(g, root, seen, {}, round)
    ensures Swept(g, root, seen + round, {}, NextRound(g, round) - (seen + round))
    ensures NextRound(g, round) <= universe
  {
    NextRoundKnown(g, universe, round);
    RoundStarts(g, root, seen, round, round);
    RoundExpands(g, root, seen + round, round);
    RoundEnds(g, root, seen + round, NextRound(g, round));
  }

  /** Mid-way: `out` lists the walkable names entered so far, each once. */
  ghost predicate Written(g: Graph, seen: set<string>, out: seq<string>) {
    NoDuplicates(out) && forall v :: v in out <==> v in seen && g.ok(v)
  }

  lemma WrittenGrows(g: Graph, seen: set<string>, out: seq<string>, round: set<string>, more: seq<string>)
    requires Written(g, seen, out) && Written(g, round, more) && round !! seen
    ensures Written(g, seen + round, out + more)
  {
    JoinDistinct(out, more);
  }

  /** The Python emitter walks each round in whatever order the set iterates. */
  method EmitFuncPython(d: Functions, func: string, o: Output, ghost universe: set<string>)
    requires ClosedUniverse(PythonGraph(d), universe) && Leads(d, func) <= universe
    modifies o
    ensures old(o.emitted) <= o.emitted
    ensures EmitsReachable(PythonGraph(d), func, o.emitted[|old(o.emitted)|..])
  {
    ghost var g, start := PythonGraph(d), o.emitted;
    assert g.next(func) == Leads(d, func);
    o.emitted := o.emitted + [func];
    var newdeps := d.calls(func);
    newdeps := newdeps + d.vardeps(func);
    var seen := {};
    ghost var out := [];
    SweepStarts(g, func, newdeps);
    while newdeps != {}
      invariant o.emitted == start + [func] + out && Written(g, seen, out)
      invariant Swept(g, func, seen, {}, newdeps)
      invariant newdeps !! seen && newdeps <= universe
      decreases universe - seen, newdeps
    {
      var deps := newdeps;
      MeasureDrops(universe, seen, deps);
      ghost var more;
      newdeps, more := EmitRoundPython(d, o, deps);
      WholeRound(g, func, universe, seen, deps);
      WrittenGrows(g, seen, out, deps, more);
      AppendAssociates(start + [func], out, more);
      out := out + more;
      seen := seen + deps;
      newdeps := newdeps - seen;
    }
    SweepEnds(g, func, seen);
    OutputTail(start, func, out);
  }

  lemma OutputTail(start: seq<string>, func: string, out: seq<string>)
    ensures (start + [func] + out)[|start|..] == [func] + out
    ensures ([func] + out)[1..] == out && start <= start + [func] + out
  {
  }

  method EmitRoundPython(d: Functions, o: Output, deps: set<string>)
    returns (newdeps: set<string>, ghost more: seq<string>)
    modifies o
    ensures o.emitted == old(o.emitted) + more && Written(PythonGraph(d), deps, more)
    ensures newdeps == NextRound(PythonGraph(d), deps)
  {
    ghost var g := PythonGraph(d);
    newdeps, more := {}, [];
    var todo := deps;
    while todo != {}
      invariant todo <= deps && o.emitted == old(o.emitted) + more && Written(g, deps - todo, more)
      invariant newdeps == NextRound(g, deps - todo)
      decreases todo
    {
      var dep :| dep in todo;
      NextRoundGrows(g, deps - todo, deps - (todo - {dep}), dep);
      AppendAssociates(old(o.emitted), more, [dep]);
      if d.func(dep) && d.python(dep) {
        o.emitted := o.emitted + [dep];
        more := more + [dep];
        newdeps := newdeps + d.calls(dep);
        newdeps := newdeps + d.vardeps(dep);
      }
      todo := todo - {dep};
    }
  }
}
