/** poky/bitbake/lib/bb/build.py: `addtask` and `deltask` edit the task list and the `deps` flags. */
module TaskEdits {
  import opened Wrappers
  import opened Lists
  import opened TaskChains

  /** `__BBTASKS`, the `deps` flags, and the names that carry the `task` flag. */
  datatype Tasks = Tasks(list: seq<string>, deps: map<string, seq<string>>, flagged: set<string>) {
    /** A missing flag reads as an empty list. */
    function DepsOf(t: string): seq<string> { if t in deps then deps[t] else [] }
  }

  function FullName(task: string): string {
    if |task| >= 3 && task[..3] == "do_" then task else "do_" + task
  }

  function AppendMissing(existing: seq<string>, entries: seq<string>): seq<string> {
    if entries == [] then existing
    else
      var s := AppendMissing(existing, entries[..|entries| - 1]);
      if entries[|entries| - 1] in s then s else s + [entries[|entries| - 1]]
  }

  /** `task` goes to the front of the dependencies of each entry that does not list it yet. */
  function PrependTo(s: Tasks, task: string, entries: seq<string>): Tasks {
    if entries == [] then s
    else
      var s1, entry := PrependTo(s, task, entries[..|entries| - 1]), entries[|entries| - 1];
      if task in s1.DepsOf(entry) then s1
      else s1.(deps := s1.deps[entry := [task] + s1.DepsOf(entry)])
  }

  function Added(s: Tasks, name: string, before: Option<seq<string>>, after: Option<seq<string>>): Tasks {
    var task := FullName(name);
    var list := if task in s.list then s.list else s.list + [task];
    var own := AppendMissing(s.DepsOf(task), after.GetOr([]));
    PrependTo(Tasks(list, s.deps[task := own], s.flagged + {task}), task, before.GetOr([]))
  }

  function RemoveFirst(s: seq<string>, x: string): seq<string> {
    if s == [] then [] else if s[0] == x then s[1..] else [s[0]] + RemoveFirst(s[1..], x)
  }

  function Deleted(s: Tasks, name: string): Tasks {
    var task := FullName(name);
    var list := RemoveFirst(s.list, task);
    Tasks(list,
          map b | b in s.deps && b != task :: if b in list then RemoveFirst(s.deps[b], task) else s.deps[b],
          if task in s.list then s.flagged - {task} else s.flagged)
  }

  lemma DeletedIs(s: Tasks, name: string, t: Tasks)
    requires t.list == RemoveFirst(s.list, FullName(name))
    requires t.deps.Keys == s.deps.Keys - {FullName(name)}
    requires forall b :: b in t.deps ==>
      t.deps[b] == if b in t.list then RemoveFirst(s.deps[b], FullName(name)) else s.deps[b]
    requires t.flagged == if FullName(name) in s.list then s.flagged - {FullName(name)} else s.flagged
    ensures t == Deleted(s, name)
  {
  }

  /** The datastore keys that the two operations edit. */
  class TaskStore {
    var bbtasks: seq<string>
    var deps: map<string, seq<string>>
    var flagged: set<string>

    constructor ()
      ensures Value() == Tasks([], map[], {})
    {
      bbtasks, deps, flagged := [], map[], {};
    }

    ghost function Value(): Tasks
      reads this
    {
      Tasks(bbtasks, deps, flagged)
    }

    function GetDeps(t: string): (s: seq<string>)
      reads this
      ensures s == Value().DepsOf(t)
    {
      if t in deps then deps[t] else []
    }

    method AddTask(name: string, before: Option<seq<string>>, after: Option<seq<string>>)
      modifies this
      ensures Value() == Added(old(Value()), name, before, after)
    {
      var task := FullName(name);
      flagged := flagged + {task};
      if task !in bbtasks {
        bbtasks := bbtasks + [task];
      }
      var existing := GetDeps(task);
      if after.Some? {
        for i := 0 to |after.value|
          invariant existing == AppendMissing(GetDeps(task), after.value[..i])
        {
          var entry := after.value[i];
          assert after.value[..i + 1][..i] == after.value[..i];
          if entry !in existing {
            existing := existing + [entry];
          }
        }
        assert after.value[..|after.value|] == after.value;
      }
      deps := deps[task := existing];
      ghost var mid := Value();
      if before.Some? {
        for i := 0 to |before.value|
          invariant Value() == PrependTo(mid, task, before.value[..i])
        {
          var entry := before.value[i];
          assert before.value[..i + 1][..i] == before.value[..i];
          existing := GetDeps(entry);
          if task !in existing {
            deps := deps[entry := [task] + existing];
          }
        }
        assert before.value[..|before.value|] == before.value;
      }
    }

    method DelTask(name: string)
      requires NoDuplicates(bbtasks)
      modifies this
      ensures Value() == Deleted(old(Value()), name)
    {
      hide RemoveFirst, NoDuplicates;
      ghost var before := Value();
      var task := FullName(name);
      if task in bbtasks {
        bbtasks := RemoveFirst(bbtasks, task);
        flagged := flagged - {task};
      } else {
        RemoveAbsent(bbtasks, task);
      }
      deps := deps - {task};
      RemovedList(old(bbtasks), task);
      ForgetDependency(task);
      DeletedIs(before, name, Value());
    }

    /** The `addtask` and `deltask` statements of a recipe, in their order. */
    method EditAll(edits: seq<Edit>)
      requires Tidy(Value())
      modifies this
      ensures Value() == Edited(old(Value()), edits)
    {
      for i := 0 to |edits|
        invariant Value() == Edited(old(Value()), edits[..i])
      {
        assert edits[..i + 1][..i] == edits[..i];
        EditsStayTidy(old(Value()), edits[..i]);
        match edits[i] {
          case AddTask(name, before, after) => AddTask(name, before, after);
          case DelTask(name) => DelTask(name);
        }
      }
      assert edits[..|edits|] == edits;
    }

    /** The loop of `deltask` over the remaining tasks. */
    method ForgetDependency(task: string)
      requires NoDuplicates(bbtasks)
      modifies `deps
      ensures deps.Keys == old(deps.Keys)
      ensures forall b :: b in deps ==> deps[b] == if b in bbtasks then RemoveFirst(old(deps)[b], task) else old(deps)[b]
    {
      for i := 0 to |bbtasks|
        invariant deps.Keys == old(deps.Keys)
        invariant forall b :: b in deps ==>
          deps[b] == if b in bbtasks[..i] then RemoveFirst(old(deps)[b], task) else old(deps)[b]
      {
        var bbtask := bbtasks[i];
        PrefixGrows(bbtasks, i);
        NotYet(bbtasks, i);
        var own := GetDeps(bbtask);
        if task in own {
          deps := deps[bbtask := RemoveFirst(own, task)];
        } else {
          RemoveAbsent(own, task);
        }
      }
      assert bbtasks[..|bbtasks|] == bbtasks;
    }
  }

  lemma NotYet(s: seq<string>, i: nat)
    requires NoDuplicates(s) && i < |s|
    ensures s[i] !in s[..i]
  {
  }

  lemma {:induction false} RemoveAbsent(s: seq<string>, x: string)
    requires x !in s
    ensures RemoveFirst(s, x) == s
  {
    if s != [] {
      RemoveAbsent(s[1..], x);
    }
  }

  /** In a list without repetitions, removing one occurrence removes the name. */
  lemma {:induction false} RemovedList(s: seq<string>, x: string)
    requires NoDuplicates(s)
    ensures NoDuplicates(RemoveFirst(s, x))
    ensures forall y :: y in RemoveFirst(s, x) <==> y in s && y != x
  {
    if s != [] {
      RemovedList(s[1..], x);
      assert s == [s[0]] + s[1..];
      var rest := RemoveFirst(s[1..], x);
      if s[0] != x {
        assert forall j :: 0 <= j < |rest| ==> rest[j] in s[1..];
      }
    }
  }

  /** `list.remove`: the first occurrence goes, all others stay in their places. */
  lemma {:induction false} FirstIsRemoved(front: seq<string>, x: string, rest: seq<string>)
    requires x !in front
    ensures RemoveFirst(front + [x] + rest, x) == front + rest
  {
    var s := front + [x] + rest;
    if front == [] {
      assert s == [x] + rest && front + rest == rest;
    } else {
      FirstIsRemoved(front[1..], x, rest);
      assert s[1..] == front[1..] + [x] + rest && front + rest == [front[0]] + (front[1..] + rest);
    }
  }

  // ---- every sequence of edits ----

  /** No name is listed twice, anywhere; every task has a dependency list. */
  ghost predicate Tidy(s: Tasks) {
    && NoDuplicates(s.list)
    && (forall t :: t in s.deps ==> NoDuplicates(s.deps[t]))
    && s.flagged == Elements(s.list) && s.flagged <= s.deps.Keys
  }

  datatype Edit = AddTask(name: string, before: Option<seq<string>>, after: Option<seq<string>>) | DelTask(name: string)

  function Edited(s: Tasks, edits: seq<Edit>): Tasks {
    if edits == [] then s
    else
      var s1 := Edited(s, edits[..|edits| - 1]);
      match edits[|edits| - 1]
      case AddTask(name, before, after) => Added(s1, name, before, after)
      case DelTask(name) => Deleted(s1, name)
  }

  lemma {:induction false} AppendMissingTidy(existing: seq<string>, entries: seq<string>)
    requires NoDuplicates(existing)
    ensures NoDuplicates(AppendMissing(existing, entries))
    ensures forall x :: x in AppendMissing(existing, entries) <==> x in existing || x in entries
    ensures existing <= AppendMissing(existing, entries)
  {
    if entries != [] {
      AppendMissingTidy(existing, entries[..|entries| - 1]);
      assert entries == entries[..|entries| - 1] + [entries[|entries| - 1]];
    }
  }

  /** What an `addtask ... before` leaves: `task` in front of the entries' lists, all else as it was. */
  lemma {:induction false} PrependToAt(s: Tasks, task: string, entries: seq<string>, t: string)
    ensures var s1 := PrependTo(s, task, entries);
            && s1.list == s.list && s1.flagged == s.flagged && s.deps.Keys <= s1.deps.Keys
            && s1.DepsOf(t) == if t in entries && task !in s.DepsOf(t) then [task] + s.DepsOf(t) else s.DepsOf(t)
  {
    if entries != [] {
      PrependToAt(s, task, entries[..|entries| - 1], t);
      assert entries == entries[..|entries| - 1] + [entries[|entries| - 1]];
    }
  }

  lemma AddedAt(s: Tasks, name: string, before: Option<seq<string>>, after: Option<seq<string>>, t: string)
    requires Tidy(s)
    ensures var s1, task := Added(s, name, before, after), FullName(name);
            var own := if t == task then AppendMissing(s.DepsOf(t), after.GetOr([])) else s.DepsOf(t);
            && s1.list == (if task in s.list then s.list else s.list + [task])
            && s1.flagged == s.flagged + {task} && s.deps.Keys + {task} <= s1.deps.Keys
            && s1.DepsOf(t) == if t in before.GetOr([]) && task !in own then [task] + own else own
  {
    var task := FullName(name);
    var list := if task in s.list then s.list else s.list + [task];
    var own := AppendMissing(s.DepsOf(task), after.GetOr([]));
    PrependToAt(Tasks(list, s.deps[task := own], s.flagged + {task}), task, before.GetOr([]), t);
  }

  lemma AddedTidy(s: Tasks, name: string, before: Option<seq<string>>, after: Option<seq<string>>)
    requires Tidy(s)
    ensures Tidy(Added(s, name, before, after))
  {
    var s1 := Added(s, name, before, after);
    AddedAt(s, name, before, after, FullName(name));
    forall t | t in s1.deps ensures NoDuplicates(s1.deps[t]) {
      AddedAt(s, name, before, after, t);
      AppendMissingTidy(s.DepsOf(t), after.GetOr([]));
      assert s1.deps[t] == s1.DepsOf(t);
    }
    forall x ensures x in s1.flagged <==> x in Elements(s1.list) { }
  }

  lemma DeletedTidy(s: Tasks, name: string)
    requires Tidy(s)
    ensures Tidy(Deleted(s, name))
  {
    var task, s1 := FullName(name), Deleted(s, name);
    RemovedList(s.list, task);
    forall t | t in s1.deps ensures NoDuplicates(s1.deps[t]) {
      RemovedList(s.deps[t], task);
    }
    forall x ensures x in s1.flagged <==> x in Elements(s1.list) { }
  }

  lemma {:induction false} EditsStayTidy(s: Tasks, edits: seq<Edit>)
    requires Tidy(s)
    ensures Tidy(Edited(s, edits))
  {
    if edits != [] {
      EditsStayTidy(s, edits[..|edits| - 1]);
      var s1 := Edited(s, edits[..|edits| - 1]);
      match edits[|edits| - 1]
      case AddTask(name, before, after) => AddedTidy(s1, name, before, after);
      case DelTask(name) => DeletedTidy(s1, name);
    }
  }

  // ---- names ----

  /** A task can be given with or without the prefix, to either edit. */
  lemma EitherName(s: Tasks, x: string, before: Option<seq<string>>, after: Option<seq<string>>)
    requires !("do_" <= x)
    ensures Added(s, x, before, after) == Added(s, "do_" + x, before, after)
    ensures Deleted(s, x) == Deleted(s, "do_" + x)
  {
    assert ("do_" + x)[..3] == "do_";
  }

  /** A name with the prefix is the entry itself: in the list, in the flags, and in the dependencies of
      the tasks that it is to precede; deleting under that name takes it away. */
  lemma PrefixedNameIsTask(s: Tasks, t: string, before: Option<seq<string>>, after: Option<seq<string>>)
    requires Tidy(s) && "do_" <= t
    ensures var s1 := Added(s, t, before, after);
            && t in s1.list && t in s1.flagged && t in s1.deps
            && (forall x :: x in after.GetOr([]) ==> x in s1.DepsOf(t))
            && (forall b :: b in before.GetOr([]) ==> t in s1.DepsOf(b))
            && (forall u :: u != t ==> (u in s1.list <==> u in s.list) && (u in s1.flagged <==> u in s.flagged))
    ensures var s2 := Deleted(s, t);
            && t !in s2.list && t !in s2.flagged && t !in s2.deps
            && forall u :: u != t ==> (u in s2.list <==> u in s.list) && (u in s2.flagged <==> u in s.flagged)
  {
    assert t[..3] == "do_";
    AddedAt(s, t, before, after, t);
    AppendMissingTidy(s.DepsOf(t), after.GetOr([]));
    forall b | b in before.GetOr([]) ensures t in Added(s, t, before, after).DepsOf(b) {
      AddedAt(s, t, before, after, b);
    }
    RemovedList(s.list, t);
    assert t in s.flagged <==> t in s.list;
  }

  /** Whatever names the edits were given, every listed task has the prefix. */
  lemma {:induction false} ListedArePrefixed(edits: seq<Edit>)
    ensures forall t :: t in Edited(Tasks([], map[], {}), edits).list ==> "do_" <= t
  {
    if edits != [] {
      var front := edits[..|edits| - 1];
      ListedArePrefixed(front);
      var s := Edited(Tasks([], map[], {}), front);
      assert Elements<string>([]) == {};
      EditsStayTidy(Tasks([], map[], {}), front);
      match edits[|edits| - 1]
      case AddTask(name, before, after) => AddedAt(s, name, before, after, FullName(name));
      case DelTask(name) => RemovedList(s.list, FullName(name));
    }
  }

  /** After any edits, deleting a task leaves it out of the list and of every listed task's
      dependencies, although only one occurrence is removed from each list. */
  lemma DeletedIsGone(edits: seq<Edit>, name: string)
    ensures var s := Edited(Tasks([], map[], {}), edits);
            var s1, task := Deleted(s, name), FullName(name);
            && task !in s1.list && task !in s1.deps && task !in s1.flagged
            && (forall b :: b in s1.list <==> b in s.list && b != task)
            && (forall b, x :: b in s1.list ==> (x in s1.DepsOf(b) <==> x in s.DepsOf(b) && x != task))
  {
    var s, task := Edited(Tasks([], map[], {}), edits), FullName(name);
    assert Elements<string>([]) == {};
    EditsStayTidy(Tasks([], map[], {}), edits);
    RemovedList(s.list, task);
    forall b | b in s.list && b != task ensures b in s.deps && NoDuplicates(s.deps[b]) {
      assert b in s.flagged;
    }
    forall b, x | b in Deleted(s, name).list ensures x in Deleted(s, name).DepsOf(b) <==> x in s.DepsOf(b) && x != task {
      RemovedList(s.deps[b], task);
    }
  }

  /** `deltask` undoes `addtask` of a new task for the other tasks, exactly if none of them already
      depended on the name (an earlier `after` clause may have mentioned it). */
  lemma DeleteUndoesAdd(s: Tasks, name: string, before: Option<seq<string>>, after: Option<seq<string>>)
    requires Tidy(s) && FullName(name) !in s.list
    ensures var s2 := Deleted(Added(s, name, before, after), name);
            && s2.list == s.list && s2.flagged == s.flagged
            && ((forall b :: b in s.list ==> s2.DepsOf(b) == s.DepsOf(b)) <==>
                (forall b :: b in s.list ==> FullName(name) !in s.DepsOf(b)))
  {
    var task := FullName(name);
    var s1 := Added(s, name, before, after);
    var s2 := Deleted(s1, name);
    AddedTidy(s, name, before, after);
    AddedAt(s, name, before, after, task);
    FirstIsRemoved(s.list, task, []);
    assert s.list + [task] + [] == s.list + [task];
    assert s2.flagged == s.flagged by {
      assert task !in s.flagged;
    }
    forall b | b in s.list
      ensures s2.DepsOf(b) == RemoveFirst(s.DepsOf(b), task)
      ensures s2.DepsOf(b) == s.DepsOf(b) <==> task !in s.DepsOf(b)
    {
      AddedAt(s, name, before, after, b);
      assert b in s.flagged && b in s1.deps && b in s2.deps;
      RemovedList(s.DepsOf(b), task);
      if task !in s.DepsOf(b) { RemoveAbsent(s.DepsOf(b), task); }
    }
  }

  /** Editing always leaves a recipe that `tasksbetween` can walk without missing a dependency list. */
  lemma EditsGiveWalkableRecipe(edits: seq<Edit>, tasks: seq<string>)
    requires Elements(tasks) == Edited(Tasks([], map[], {}), edits).flagged
    ensures forall t :: t in Recipe(tasks, Edited(Tasks([], map[], {}), edits).deps).tasks ==>
      t in Recipe(tasks, Edited(Tasks([], map[], {}), edits).deps).deps
  {
    assert Elements<string>([]) == {};
    EditsStayTidy(Tasks([], map[], {}), edits);
    forall t | t in tasks ensures t in Elements(tasks) { }
  }
}
