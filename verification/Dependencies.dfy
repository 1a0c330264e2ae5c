/** poky/bitbake/lib/bb/data.py: the dependency closure of tasks and the text that is hashed
    into a task's base hash. */
module Dependencies {
  import opened Wrappers
  import opened Lists
  import opened NameOrder
  import opened Reachability

  /** What `build_dependencies` yields for one name: the names it mentions and its value. */
  datatype Built = Built(deps: set<string>, value: Option<string>)

  /** A datastore as the two functions see it: `build_dependencies` is a fixed function of the name. */
  type Datastore = string -> Built

  function Mentions(d: Datastore, ignored: set<string>): Graph {
    Graph(v => d(v).deps, v => v !in ignored)
  }

  /** `v` is reached from `task` through names that are not ignored. */
  ghost predicate DependsOn(d: Datastore, ignored: set<string>, task: string, v: string) {
    Reaches(Mentions(d, ignored), task, v)
  }

  ghost predicate Finite(d: Datastore, ignored: set<string>, tasklist: seq<string>, universe: set<string>) {
    forall t :: t in tasklist ==> FiniteFrom(Mentions(d, ignored), t, universe)
  }

  /** The dictionary of mutable dependency sets that the two functions hand on. */
  class DependencySets {
    var sets: map<string, set<string>>

    constructor ()
      ensures sets == map[]
    {
      sets := map[];
    }
  }

  /** Everything a task's base hash looks at is in the tables, with the datastore's content
      up to ignored names. */
  ghost predicate Covers(d: Datastore, ignored: set<string>, tasklist: seq<string>,
                         sets: map<string, set<string>>, values: map<string, Option<string>>) {
    forall t :: t in tasklist ==>
      && TableEntry(d, ignored, sets, values, t)
      && forall v :: DependsOn(d, ignored, t, v) ==> TableEntry(d, ignored, sets, values, v)
  }

  ghost predicate TableEntry(d: Datastore, ignored: set<string>,
                             sets: map<string, set<string>>, values: map<string, Option<string>>, v: string) {
    && v in sets && sets[v] - ignored == d(v).deps - ignored
    && v in values && values[v] == d(v).value
  }

  /** Both tables are filled for the same names, with what the datastore says. */
  ghost predicate Filled(d: Datastore, sets: map<string, set<string>>, values: map<string, Option<string>>) {
    && sets.Keys == values.Keys
    && forall v :: v in values ==> sets[v] == d(v).deps && values[v] == d(v).value
  }

  /** The names the tables have to know for these tasks. */
  ghost predicate IsNeeded(d: Datastore, ignored: set<string>, tasks: seq<string>, v: string) {
    v in tasks || exists t :: t in tasks && DependsOn(d, ignored, t, v)
  }

  method GenerateDependencies(d: Datastore, ignored: set<string>, tasklist: seq<string>, ghost universe: set<string>)
    returns (deps: map<string, set<string>>, values: map<string, Option<string>>)
    requires Finite(d, ignored, tasklist, universe)
    ensures Filled(d, deps, values)
    ensures forall v :: v in values <==> IsNeeded(d, ignored, tasklist, v)
    ensures Covers(d, ignored, tasklist, deps, values)
  {
    deps := map[];
    values := map[];
    for k := 0 to |tasklist|
      invariant Filled(d, deps, values)
      invariant forall v :: v in values <==> IsNeeded(d, ignored, tasklist[..k], v)
    {
      deps, values := AddTask(d, ignored, tasklist[k], deps, values, universe);
      PrefixGrows(tasklist, k);
    }
    assert tasklist[..|tasklist|] == tasklist;
  }

  /** The worklist loop for one task. */
  method AddTask(d: Datastore, ignored: set<string>, task: string, deps0: map<string, set<string>>,
                 values0: map<string, Option<string>>, ghost universe: set<string>)
    returns (deps: map<string, set<string>>, values: map<string, Option<string>>)
    requires FiniteFrom(Mentions(d, ignored), task, universe)
    requires Filled(d, deps0, values0)
    ensures Filled(d, deps, values)
    ensures forall v :: v in values <==> v in values0 || v == task || DependsOn(d, ignored, task, v)
  {
    deps, values := deps0[task := d(task).deps], values0[task := d(task).value];
    ghost var g := Mentions(d, ignored);
    ghost var before := values.Keys;
    var newdeps, seen := deps[task], {};
    SweepStarts(g, task, newdeps);
    while newdeps != {}
      invariant Swept(g, task, seen, {}, newdeps) && newdeps !! seen
      invariant seen <= universe && newdeps <= universe && seen !! ignored
      invariant Filled(d, deps, values) && forall v :: v in values <==> v in before || v in seen
      decreases universe - seen, newdeps
    {
      var nextdeps := newdeps - ignored;
      RoundStarts(g, task, seen, newdeps, nextdeps);
      MeasureDrops(universe, seen, nextdeps);
      seen := seen + nextdeps;
      deps, values, newdeps := ExpandRound(d, ignored, task, seen, nextdeps, deps, values, universe);
      RoundEnds(g, task, seen, newdeps);
      newdeps := newdeps - seen;
    }
    SweepEnds(g, task, seen);
  }

  /** One round: every name of the round is looked up, and built if no earlier task needed it. */
  method ExpandRound(d: Datastore, ignored: set<string>, ghost task: string, ghost seen: set<string>, nextdeps: set<string>,
                     deps0: map<string, set<string>>, values0: map<string, Option<string>>, ghost universe: set<string>)
    returns (deps: map<string, set<string>>, values: map<string, Option<string>>, newdeps: set<string>)
    requires Swept(Mentions(d, ignored), task, seen, nextdeps, {})
    requires FiniteFrom(Mentions(d, ignored), task, universe) && nextdeps <= universe - ignored
    requires Filled(d, deps0, values0)
    ensures Swept(Mentions(d, ignored), task, seen, {}, newdeps) && newdeps <= universe
    ensures nextdeps == {} ==> newdeps == {}
    ensures Filled(d, deps, values) && forall v :: v in values <==> v in values0 || v in nextdeps
  {
    deps, values, newdeps := deps0, values0, {};
    var todo := nextdeps;
    while todo != {}
      invariant Swept(Mentions(d, ignored), task, seen, todo, newdeps)
      invariant todo <= nextdeps && newdeps <= universe && (nextdeps == {} ==> newdeps == {})
      invariant Filled(d, deps, values) && forall v :: v in values <==> v in values0 || v in nextdeps - todo
      decreases todo
    {
      var dep :| dep in todo;
      if dep !in deps {
        deps, values := deps[dep := d(dep).deps], values[dep := d(dep).value];
      }
      Expanded(Mentions(d, ignored), task, seen, todo, newdeps, dep, deps[dep]);
      newdeps := newdeps + deps[dep];
      todo := todo - {dep};
    }
  }

  /** The text pieces hashed for one name of the closure: the name, and its value unless it is None. */
  function DepPieces(d: Datastore, dep: string): seq<string> {
    [dep] + OwnPieces(d, dep)
  }

  function OwnPieces(d: Datastore, name: string): seq<string> {
    match d(name).value case None => [] case Some(text) => [text]
  }

  function AllPieces(d: Datastore, deps: seq<string>): seq<string> {
    if deps == [] then [] else AllPieces(d, deps[..|deps| - 1]) + DepPieces(d, deps[|deps| - 1])
  }

  /** The piece list of a task whose sorted closure is `alldeps`. */
  function Pieces(d: Datastore, task: string, alldeps: seq<string>): seq<string> {
    OwnPieces(d, task) + AllPieces(d, alldeps)
  }

  function Join(pieces: seq<string>): string {
    if pieces == [] then "" else pieces[0] + Join(pieces[1..])
  }

  /** `alldeps` lists the names the task depends on, ascending and each once. */
  ghost predicate IsTaskDeps(d: Datastore, ignored: set<string>, task: string, alldeps: seq<string>) {
    && Ascending(alldeps)
    && forall v :: v in alldeps <==> DependsOn(d, ignored, task, v)
  }

  /** In-place removal of ignored names from the sets of the names in `touched`, and no other. */
  ghost predicate Pruned(ignored: set<string>, touched: set<string>,
                         before: map<string, set<string>>, after: map<string, set<string>>) {
    && before.Keys == after.Keys
    && forall v :: v in before ==> after[v] == if v in touched then before[v] - ignored else before[v]
  }

  lemma PrunedKeepsCover(d: Datastore, ignored: set<string>, tasklist: seq<string>, touched: set<string>,
                         before: map<string, set<string>>, after: map<string, set<string>>,
                         values: map<string, Option<string>>)
    requires Covers(d, ignored, tasklist, before, values) && Pruned(ignored, touched, before, after)
    ensures Covers(d, ignored, tasklist, after, values)
  {
  }

  lemma PrunedTwice(ignored: set<string>, t1: set<string>, t2: set<string>, both: set<string>, a: map<string, set<string>>,
                    b: map<string, set<string>>, c: map<string, set<string>>)
    requires Pruned(ignored, t1, a, b) && Pruned(ignored, t2, b, c)
    requires forall v :: v in a ==> (v in both <==> v in t1 || v in t2)
    ensures Pruned(ignored, both, a, c)
  {
  }

  /** The names among `known` whose sets the hashing of `tasks` touches. */
  ghost function Needed(d: Datastore, ignored: set<string>, tasks: seq<string>, known: set<string>): set<string> {
    set v | v in known && IsNeeded(d, ignored, tasks, v)
  }

  /** `h` is the base hash of a task whose sorted closure is `alldeps`. */
  ghost predicate IsBaseHash(d: Datastore, ignored: set<string>, sha256: string -> string, task: string,
                             alldeps: seq<string>, h: string) {
    IsTaskDeps(d, ignored, task, alldeps) && h == sha256(Join(Pieces(d, task, alldeps)))
  }

  /** The two result tables hold the given tasks, each with its closure and its hash. */
  ghost predicate Hashed(d: Datastore, ignored: set<string>, fn: string, sha256: string -> string, tasks: seq<string>,
                         taskdeps: map<string, seq<string>>, basehash: map<string, string>) {
    && (forall t :: t in taskdeps <==> t in tasks)
    && forall t :: t in tasks ==>
         fn + ":" + t in basehash && IsBaseHash(d, ignored, sha256, t, taskdeps[t], basehash[fn + ":" + t])
  }

  ghost predicate OnlyTasks(fn: string, tasks: seq<string>, basehash: map<string, string>) {
    forall h :: h in basehash ==> exists t :: t in tasks && h == fn + ":" + t
  }

  lemma OnlyTasksGrows(fn: string, tasks: seq<string>, k: nat, basehash: map<string, string>, hash: string)
    requires k < |tasks| && OnlyTasks(fn, tasks[..k], basehash)
    ensures OnlyTasks(fn, tasks[..k + 1], basehash[fn + ":" + tasks[k] := hash])
  {
  }

  method GenerateDependencyHash(ghost d: Datastore, tasklist: seq<string>, gendeps: DependencySets,
                                lookupcache: map<string, Option<string>>, ignored: set<string>,
                                fn: string, sha256: string -> string)
    returns (taskdeps: map<string, seq<string>>, basehash: map<string, string>)
    requires Covers(d, ignored, tasklist, gendeps.sets, lookupcache)
    modifies gendeps
    ensures Hashed(d, ignored, fn, sha256, tasklist, taskdeps, basehash) && OnlyTasks(fn, tasklist, basehash)
    ensures Pruned(ignored, Needed(d, ignored, tasklist, old(gendeps.sets.Keys)), old(gendeps.sets), gendeps.sets)
    ensures Covers(d, ignored, tasklist, gendeps.sets, lookupcache)
  {
    taskdeps, basehash := map[], map[];
    ghost var known := gendeps.sets.Keys;
    for k := 0 to |tasklist|
      invariant Hashed(d, ignored, fn, sha256, tasklist[..k], taskdeps, basehash)
      invariant OnlyTasks(fn, tasklist[..k], basehash)
      invariant Pruned(ignored, Needed(d, ignored, tasklist[..k], known), old(gendeps.sets), gendeps.sets)
      invariant Covers(d, ignored, tasklist, gendeps.sets, lookupcache)
    {
      var task := tasklist[k];
      ghost var sets := gendeps.sets;
      var alldeps := TaskClosure(d, ignored, tasklist, task, gendeps, lookupcache);
      var data := TaskData(d, ignored, tasklist, task, alldeps, gendeps, lookupcache);
      NeededGrows(d, ignored, tasklist, k, alldeps, old(gendeps.sets), sets, gendeps.sets);
      var hash := sha256(Join(data));
      OnlyTasksGrows(fn, tasklist, k, basehash, hash);
      HashedGrows(d, ignored, fn, sha256, tasklist, k, taskdeps, basehash, alldeps, hash);
      basehash := basehash[fn + ":" + task := hash];
      taskdeps := taskdeps[task := alldeps];
    }
    assert tasklist[..|tasklist|] == tasklist;
  }

  lemma NeededGrows(d: Datastore, ignored: set<string>, tasks: seq<string>, k: nat, alldeps: seq<string>,
                    a: map<string, set<string>>, b: map<string, set<string>>, c: map<string, set<string>>)
    requires k < |tasks| && IsTaskDeps(d, ignored, tasks[k], alldeps)
    requires Pruned(ignored, Needed(d, ignored, tasks[..k], a.Keys), a, b)
    requires Pruned(ignored, {tasks[k]} + Elements(alldeps), b, c)
    ensures Pruned(ignored, Needed(d, ignored, tasks[..k + 1], a.Keys), a, c)
  {
  }

  /** Recording one more task keeps the earlier ones; a repeated task gets the same entry again. */
  lemma HashedGrows(d: Datastore, ignored: set<string>, fn: string, sha256: string -> string, tasks: seq<string>, k: nat,
                    taskdeps: map<string, seq<string>>, basehash: map<string, string>, alldeps: seq<string>, hash: string)
    requires k < |tasks| && Hashed(d, ignored, fn, sha256, tasks[..k], taskdeps, basehash)
    requires IsBaseHash(d, ignored, sha256, tasks[k], alldeps, hash)
    ensures Hashed(d, ignored, fn, sha256, tasks[..k + 1], taskdeps[tasks[k] := alldeps],
                   basehash[fn + ":" + tasks[k] := hash])
  {
    hide IsBaseHash;
    PrefixGrows(tasks, k);
    var task := tasks[k];
    var deps', hash' := taskdeps[task := alldeps], basehash[fn + ":" + task := hash];
    forall t | t in tasks[..k + 1]
      ensures fn + ":" + t in hash' && IsBaseHash(d, ignored, sha256, t, deps'[t], hash'[fn + ":" + t])
    {
      if t != task {
        SamePrefix(fn + ":", t, task);
        assert deps'[t] == taskdeps[t] && hash'[fn + ":" + t] == basehash[fn + ":" + t];
      }
    }
  }

  lemma SamePrefix(prefix: string, a: string, b: string)
    ensures prefix + a == prefix + b ==> a == b
  {
    assert (prefix + a)[|prefix|..] == a && (prefix + b)[|prefix|..] == b;
  }

  lemma PiecesGrow(d: Datastore, task: string, s: seq<string>, i: nat)
    requires i < |s|
    ensures Pieces(d, task, s[..i + 1]) == Pieces(d, task, s[..i]) + [s[i]] + OwnPieces(d, s[i])
  {
    assert s[..i + 1][..i] == s[..i];
  }

  /** The piece list of a task, read from the tables: no key is missing. */
  method TaskData(ghost d: Datastore, ghost ignored: set<string>, ghost tasklist: seq<string>, task: string, alldeps: seq<string>,
                  gendeps: DependencySets, lookupcache: map<string, Option<string>>)
    returns (data: seq<string>)
    requires task in tasklist && Covers(d, ignored, tasklist, gendeps.sets, lookupcache)
    requires IsTaskDeps(d, ignored, task, alldeps)
    ensures data == Pieces(d, task, alldeps)
  {
    assert TableEntry(d, ignored, gendeps.sets, lookupcache, task);
    data := [];
    if lookupcache[task].Some? {
      data := [lookupcache[task].value];
    }
    for i := 0 to |alldeps|
      invariant data == Pieces(d, task, alldeps[..i])
    {
      var dep := alldeps[i];
      assert DependsOn(d, ignored, task, dep);
      assert TableEntry(d, ignored, gendeps.sets, lookupcache, dep);
      PiecesGrow(d, task, alldeps, i);
      data := data + [dep];
      if lookupcache[dep].Some? {
        data := data + [lookupcache[dep].value];
      }
    }
    assert alldeps[..|alldeps|] == alldeps;
  }

  /** The worklist loop for one task's hash. */
  method TaskClosure(ghost d: Datastore, ignored: set<string>, ghost tasklist: seq<string>, task: string,
                     gendeps: DependencySets, ghost values: map<string, Option<string>>)
    returns (alldeps: seq<string>)
    requires task in tasklist && Covers(d, ignored, tasklist, gendeps.sets, values)
    modifies gendeps
    ensures IsTaskDeps(d, ignored, task, alldeps)
    ensures Pruned(ignored, {task} + Elements(alldeps), old(gendeps.sets), gendeps.sets)
    ensures Covers(d, ignored, tasklist, gendeps.sets, values)
  {
    ghost var g := Mentions(d, ignored);
    assert TableEntry(d, ignored, gendeps.sets, values, task);
    gendeps.sets := gendeps.sets[task := gendeps.sets[task] - ignored];
    PrunedKeepsCover(d, ignored, tasklist, {task}, old(gendeps.sets), gendeps.sets, values);
    var newdeps, seen := gendeps.sets[task], {};
    ghost var universe := gendeps.sets.Keys;
    SweepStarts(g, task, newdeps);
    ReachedInTable(d, ignored, tasklist, gendeps.sets, values, task, newdeps);
    while newdeps != {}
      invariant Swept(g, task, seen, {}, newdeps) && newdeps !! seen && (seen + newdeps) !! ignored
      invariant newdeps <= universe == gendeps.sets.Keys
      invariant Pruned(ignored, {task} + seen, old(gendeps.sets), gendeps.sets)
      invariant Covers(d, ignored, tasklist, gendeps.sets, values)
      decreases universe - seen, newdeps
    {
      var nextdeps := newdeps;
      RoundStarts(g, task, seen, newdeps, nextdeps);
      MeasureDrops(universe, seen, nextdeps);
      ghost var sets := gendeps.sets;
      newdeps := PruneRound(d, ignored, tasklist, task, seen + nextdeps, nextdeps, gendeps, values);
      PrunedTwice(ignored, {task} + seen, nextdeps, {task} + (seen + nextdeps), old(gendeps.sets), sets, gendeps.sets);
      seen := seen + nextdeps;
      RoundEnds(g, task, seen, newdeps);
      newdeps := newdeps - seen;
    }
    SweepEnds(g, task, seen);
    alldeps := SortNames(seen);
    assert forall v :: v in alldeps <==> v in Elements(alldeps);
  }

  lemma ReachedInTable(d: Datastore, ignored: set<string>, tasklist: seq<string>, sets: map<string, set<string>>,
                       values: map<string, Option<string>>, task: string, names: set<string>)
    requires task in tasklist && Covers(d, ignored, tasklist, sets, values)
    requires forall v :: v in names ==> DependsOn(d, ignored, task, v)
    ensures names <= sets.Keys
  {
  }

  lemma SweptReached(d: Datastore, ignored: set<string>, task: string, seen: set<string>, todo: set<string>,
                     pending: set<string>)
    requires Swept(Mentions(d, ignored), task, seen, todo, pending)
    ensures forall v :: v in todo + pending && v !in ignored ==> DependsOn(d, ignored, task, v)
  {
  }

  lemma CoveredEntry(d: Datastore, ignored: set<string>, tasklist: seq<string>, sets: map<string, set<string>>,
                     values: map<string, Option<string>>, task: string, v: string)
    requires task in tasklist && Covers(d, ignored, tasklist, sets, values) && DependsOn(d, ignored, task, v)
    ensures v in sets && sets[v] - ignored == d(v).deps - ignored
  {
    assert TableEntry(d, ignored, sets, values, v);
  }

  /** Pruning the set of one more name of the round. */
  lemma OnePruned(d: Datastore, ignored: set<string>, tasklist: seq<string>, values: map<string, Option<string>>,
                  nextdeps: set<string>, todo: set<string>, dep: string, first: map<string, set<string>>,
                  before: map<string, set<string>>, after: map<string, set<string>>)
    requires Covers(d, ignored, tasklist, before, values) && dep in before && dep in todo && todo <= nextdeps
    requires Pruned(ignored, nextdeps - todo, first, before) && after == before[dep := before[dep] - ignored]
    ensures Pruned(ignored, nextdeps - (todo - {dep}), first, after) && Covers(d, ignored, tasklist, after, values)
  {
    PrunedKeepsCover(d, ignored, tasklist, {dep}, before, after, values);
    PrunedTwice(ignored, nextdeps - todo, {dep}, nextdeps - (todo - {dep}), first, before, after);
    hide Covers;
  }

  /** One round over sets that later tasks share. The set being walked in the first round is the
      task's own; it is already pruned, so pruning it again during the walk leaves it alone. */
  method PruneRound(ghost d: Datastore, ignored: set<string>, ghost tasklist: seq<string>, ghost task: string,
                    ghost seen: set<string>, nextdeps: set<string>, gendeps: DependencySets,
                    ghost values: map<string, Option<string>>)
    returns (newdeps: set<string>)
    requires task in tasklist && Covers(d, ignored, tasklist, gendeps.sets, values)
    requires Swept(Mentions(d, ignored), task, seen, nextdeps, {}) && nextdeps !! ignored
    requires task in gendeps.sets && gendeps.sets[task] !! ignored
    modifies gendeps
    ensures Swept(Mentions(d, ignored), task, seen, {}, newdeps)
    ensures newdeps !! ignored && newdeps <= gendeps.sets.Keys
    ensures Pruned(ignored, nextdeps, old(gendeps.sets), gendeps.sets)
    ensures gendeps.sets[task] == old(gendeps.sets[task])
    ensures Covers(d, ignored, tasklist, gendeps.sets, values)
  {
    hide Covers, Swept;
    ghost var g := Mentions(d, ignored);
    newdeps := {};
    var todo := nextdeps;
    while todo != {}
      invariant todo <= nextdeps && Swept(g, task, seen, todo, newdeps) && newdeps !! ignored
      invariant Pruned(ignored, nextdeps - todo, old(gendeps.sets), gendeps.sets)
      invariant gendeps.sets[task] == old(gendeps.sets[task])
      invariant Covers(d, ignored, tasklist, gendeps.sets, values)
      decreases todo
    {
      var dep :| dep in todo;
      if dep !in ignored {
        ghost var sets := gendeps.sets;
        SweptReached(d, ignored, task, seen, todo, newdeps);
        CoveredEntry(d, ignored, tasklist, sets, values, task, dep);
        gendeps.sets := gendeps.sets[dep := gendeps.sets[dep] - ignored];
        OnePruned(d, ignored, tasklist, values, nextdeps, todo, dep, old(gendeps.sets), sets, gendeps.sets);
        assert Successors(g, dep, gendeps.sets[dep]);
        Expanded(g, task, seen, todo, newdeps, dep, gendeps.sets[dep]);
        newdeps := newdeps + gendeps.sets[dep];
      }
      todo := todo - {dep};
    }
    SweptReached(d, ignored, task, seen, {}, newdeps);
    ReachedInTable(d, ignored, tasklist, gendeps.sets, values, task, newdeps);
  }
}
