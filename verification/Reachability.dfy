/** Reachability along a successor function, restricted to nodes that may be walked through.
    Both worklists of data.py compute it: dependency closure walks the names that are not
    ignored, function emission walks the functions of one language. */
module Reachability {

  datatype Graph = Graph(next: string -> set<string>, ok: string -> bool)

  /** `p` leads from `start` (not listed) through walkable nodes only. The start itself
      need not be walkable. */
  ghost predicate IsPath(g: Graph, start: string, p: seq<string>) {
    && p != []
    && p[0] in g.next(start)
    && (forall i :: 0 <= i < |p| ==> g.ok(p[i]))
    && (forall i :: 0 < i < |p| ==> p[i] in g.next(p[i - 1]))
  }

  ghost predicate Reaches(g: Graph, start: string, v: string) {
    exists p :: IsPath(g, start, p) && p[|p| - 1] == v
  }

  /** What a finite recipe provides: all names mentioned anywhere from `start` on. */
  ghost predicate FiniteFrom(g: Graph, start: string, universe: set<string>) {
    g.next(start) <= universe && ClosedUniverse(g, universe)
  }

  ghost predicate ClosedUniverse(g: Graph, universe: set<string>) {
    forall v :: v in universe && g.ok(v) ==> g.next(v) <= universe
  }

  lemma ReachesFirst(g: Graph, start: string, v: string)
    requires v in g.next(start) && g.ok(v)
    ensures Reaches(g, start, v)
  {
    assert IsPath(g, start, [v]);
  }

  lemma ReachesNext(g: Graph, start: string, u: string, v: string)
    requires Reaches(g, start, u) && v in g.next(u) && g.ok(v)
    ensures Reaches(g, start, v)
  {
    var p :| IsPath(g, start, p) && p[|p| - 1] == u;
    assert IsPath(g, start, p + [v]);
    assert (p + [v])[|p|] == v;
  }

  /** A set that holds the walkable successors of the start and of its own members. */
  ghost predicate ClosedFrom(g: Graph, start: string, s: set<string>) {
    && (forall v :: v in g.next(start) && g.ok(v) ==> v in s)
    && (forall u, v :: u in s && v in g.next(u) && g.ok(v) ==> v in s)
  }

  /** Reachability is the least closed set. */
  lemma ReachesIsLeast(g: Graph, start: string, s: set<string>, v: string)
    requires ClosedFrom(g, start, s) && Reaches(g, start, v)
    ensures v in s
  {
    var p :| IsPath(g, start, p) && p[|p| - 1] == v;
    PathStaysInside(g, start, s, p, |p| - 1);
  }

  lemma {:induction false} PathStaysInside(g: Graph, start: string, s: set<string>, p: seq<string>, i: nat)
    requires ClosedFrom(g, start, s) && IsPath(g, start, p) && i < |p|
    ensures p[i] in s
  {
    if i > 0 {
      PathStaysInside(g, start, s, p, i - 1);
    }
  }

  /** Reachability looks only at the start and at what is reached. */
  lemma ReachesDependsOnClosure(g: Graph, h: Graph, start: string, v: string)
    requires Walkable(g, start) == Walkable(h, start)
    requires forall u :: Reaches(g, start, u) ==> Walkable(g, u) == Walkable(h, u)
    ensures Reaches(g, start, v) <==> Reaches(h, start, v)
  {
    if Reaches(g, start, v) {
      var p :| IsPath(g, start, p) && p[|p| - 1] == v;
      SamePath(g, h, start, p, |p|);
      assert p[..|p|] == p;
    }
    if Reaches(h, start, v) {
      var p :| IsPath(h, start, p) && p[|p| - 1] == v;
      SamePathBack(g, h, start, p, |p|);
      assert p[..|p|] == p;
    }
  }

  ghost function Walkable(g: Graph, v: string): set<string> {
    set w | w in g.next(v) && g.ok(w)
  }

  lemma {:induction false} SamePath(g: Graph, h: Graph, start: string, p: seq<string>, n: nat)
    requires Walkable(g, start) == Walkable(h, start)
    requires forall u :: Reaches(g, start, u) ==> Walkable(g, u) == Walkable(h, u)
    requires IsPath(g, start, p) && 0 < n <= |p|
    ensures IsPath(h, start, p[..n]) && Reaches(g, start, p[n - 1])
  {
    if n == 1 {
      assert p[0] in Walkable(g, start);
      ReachesFirst(g, start, p[0]);
    } else {
      SamePath(g, h, start, p, n - 1);
      assert p[n - 1] in Walkable(g, p[n - 2]);
      ReachesNext(g, start, p[n - 2], p[n - 1]);
      assert p[..n] == p[..n - 1] + [p[n - 1]];
    }
  }

  lemma {:induction false} SamePathBack(g: Graph, h: Graph, start: string, p: seq<string>, n: nat)
    requires Walkable(g, start) == Walkable(h, start)
    requires forall u :: Reaches(g, start, u) ==> Walkable(g, u) == Walkable(h, u)
    requires IsPath(h, start, p) && 0 < n <= |p|
    ensures IsPath(g, start, p[..n]) && Reaches(g, start, p[n - 1])
  {
    if n == 1 {
      assert p[0] in Walkable(h, start);
      ReachesFirst(g, start, p[0]);
    } else {
      SamePathBack(g, h, start, p, n - 1);
      assert p[n - 1] in Walkable(h, p[n - 2]);
      ReachesNext(g, start, p[n - 2], p[n - 1]);
      assert p[..n] == p[..n - 1] + [p[n - 1]];
    }
  }

  /** The state of a worklist loop in the middle of a round: `seen` has been entered, of those
      `todo` is not yet expanded, and `pending` collects what the next round starts from. */
  ghost predicate Swept(g: Graph, start: string, seen: set<string>, todo: set<string>, pending: set<string>) {
    && todo <= seen
    && (forall v :: v in seen + pending && g.ok(v) ==> Reaches(g, start, v))
    && Walkable(g, start) <= seen + pending
    && (forall u :: u in seen && u !in todo && g.ok(u) ==> Walkable(g, u) <= seen + pending)
  }

  /** `found` holds the successors of `v`, give or take unwalkable ones. */
  ghost predicate Successors(g: Graph, v: string, found: set<string>) {
    && Walkable(g, v) <= found
    && forall w :: w in found && g.ok(w) ==> w in g.next(v)
  }

  lemma SweepStarts(g: Graph, start: string, found: set<string>)
    requires Successors(g, start, found)
    ensures Swept(g, start, {}, {}, found)
  {
    forall v | v in found && g.ok(v) ensures Reaches(g, start, v) {
      ReachesFirst(g, start, v);
    }
  }

  lemma RoundStarts(g: Graph, start: string, seen: set<string>, pending: set<string>, round: set<string>)
    requires Swept(g, start, seen, {}, pending) && round !! seen
    requires round <= pending && forall v :: v in pending && g.ok(v) ==> v in round
    ensures Swept(g, start, seen + round, round, {})
  {
  }

  lemma MeasureDrops(universe: set<string>, seen: set<string>, round: set<string>)
    requires round <= universe && round !! seen
    ensures universe - (seen + round) <= universe - seen
    ensures round != {} ==> universe - (seen + round) < universe - seen
  {
  }

  lemma RoundEnds(g: Graph, start: string, seen: set<string>, pending: set<string>)
    requires Swept(g, start, seen, {}, pending)
    ensures Swept(g, start, seen, {}, pending - seen)
  {
  }

  lemma Expanded(g: Graph, start: string, seen: set<string>, todo: set<string>, pending: set<string>,
                 v: string, found: set<string>)
    requires Swept(g, start, seen, todo, pending) && v in todo
    requires g.ok(v) ==> Successors(g, v, found)
    ensures Swept(g, start, seen, todo - {v}, if g.ok(v) then pending + found else pending)
  {
    if g.ok(v) {
      forall w | w in found && g.ok(w) ensures Reaches(g, start, w) {
        ReachesNext(g, start, v, w);
      }
    }
  }

  /** An exhausted worklist has entered exactly the reachable nodes (and some unwalkable ones). */
  lemma SweepEnds(g: Graph, start: string, seen: set<string>)
    requires Swept(g, start, seen, {}, {})
    ensures forall v :: v in seen && g.ok(v) <==> Reaches(g, start, v)
  {
    var walked := set v | v in seen && g.ok(v);
    assert ClosedFrom(g, start, walked);
    forall v | Reaches(g, start, v) ensures v in seen && g.ok(v) {
      ReachesIsLeast(g, start, walked, v);
    }
  }
}
