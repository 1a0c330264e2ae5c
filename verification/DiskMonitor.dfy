/** poky/bitbake/lib/bb/monitordisk.py: when the disk monitor warns, and when it stops the build. */
module DiskMonitor {
  import opened Lists
  import opened Wrappers

  datatype Action = WARN | STOPTASKS | HALT
  datatype Kind = Space | Inode
  datatype Key = Key(path: string, action: Action)

  /** What `statvfs` says: free space in bytes, free inodes, and all inodes. */
  datatype Stat = Stat(freeSpace: nat, freeInode: nat, files: nat)

  datatype Effect = Low(kind: Kind, free: nat) | Finish(halt: bool) | DiskFull(kind: Kind, free: nat)

  datatype Intervals = Intervals(space: nat, inode: nat)

  datatype Limits = Limits(minSpace: Option<nat>, minInode: Option<nat>)

  /** All that the monitor keeps about one key. */
  datatype KeyState = KeyState(limits: Limits, preFreeS: nat, preFreeI: nat, checked: bool) {
    function Pre(kind: Kind): nat { if kind.Space? then preFreeS else preFreeI }
    function Min(kind: Kind): Option<nat> { if kind.Space? then limits.minSpace else limits.minInode }
    function Noted(kind: Kind, free: nat): KeyState {
      if kind.Space? then this.(preFreeS := free) else this.(preFreeI := free)
    }
    /** A minimum is set, and not met. */
    predicate IsLow(kind: Kind, free: nat) { Min(kind).Some? && Min(kind).value != 0 && free < Min(kind).value }
  }

  datatype Told = Told(state: KeyState, effects: seq<Effect>)

  /** The branch that both checks share. `and` binds before `or`: a noted zero warns whatever was checked. */
  function Report(action: Action, interval: nat, s: KeyState, kind: Kind, free: nat): Told {
    var warns := s.Pre(kind) == 0 || (s.Pre(kind) - free > interval && !s.checked);
    var t := if warns then s.Noted(kind, free) else s;
    var low := if warns then [Low(kind, free)] else [];
    if action.WARN? || s.checked then Told(t, low)
    else Told(t.(checked := true), low + [Finish(action.HALT?), DiskFull(kind, free)])
  }

  function CheckSpace(action: Action, i: Intervals, s: KeyState, st: Stat): Told {
    if s.IsLow(Space, st.freeSpace) then Report(action, i.space, s, Space, st.freeSpace) else Told(s, [])
  }

  /** A file system without an inode count is not asked again. */
  function CheckInode(action: Action, i: Intervals, s: KeyState, st: Stat): Told {
    if !s.IsLow(Inode, st.freeInode) then Told(s, [])
    else if st.files == 0 then Told(s.(limits := s.limits.(minInode := None)), [])
    else Report(action, i.inode, s, Inode, st.freeInode)
  }

  function CheckKey(action: Action, i: Intervals, s: KeyState, st: Stat): Told {
    var a := CheckSpace(action, i, s, st);
    var b := CheckInode(action, i, a.state, st);
    Told(b.state, a.effects + b.effects)
  }

  class Monitor {
    const order: seq<Key>     // the keys of the dictionaries, in their order
    const intervals: Intervals
    var devDict: map<Key, Limits>
    var preFreeS: map<Key, nat>
    var preFreeI: map<Key, nat>
    var checked: map<Key, bool>

    ghost predicate Valid()
      reads this
    {
      && NoDuplicates(order)
      && forall k :: k in order ==> k in devDict && k in preFreeS && k in preFreeI && k in checked
    }

    function StateOf(k: Key): KeyState
      requires Valid() && k in order
      reads this
    {
      KeyState(devDict[k], preFreeS[k], preFreeI[k], checked[k])
    }

    constructor (order: seq<Key>, limits: map<Key, Limits>, intervals: Intervals)
      requires NoDuplicates(order) && forall k :: k in order ==> k in limits
      ensures Valid() && this.order == order && this.intervals == intervals
      ensures forall k :: k in order ==> StateOf(k) == KeyState(limits[k], 0, 0, false)
    {
      this.order, this.intervals, devDict := order, intervals, limits;
      preFreeS := map k | k in order :: 0;
      preFreeI := map k | k in order :: 0;
      checked := map k | k in order :: false;
    }

    /** One round; `effects` has what is told about each key. */
    method Check(stats: map<Key, Stat>) returns (effects: seq<seq<Effect>>)
      requires Valid() && forall k :: k in order ==> k in stats
      modifies this
      ensures Valid() && |effects| == |order|
      ensures forall n :: 0 <= n < |order| ==>
        var k := order[n];
        Told(StateOf(k), effects[n]) == CheckKey(k.action, intervals, old(StateOf(k)), stats[k])
    {
      effects := [];
      for n := 0 to |order|
        invariant Valid() && |effects| == n
        invariant forall m :: 0 <= m < n ==>
          var k := order[m];
          Told(StateOf(k), effects[m]) == CheckKey(k.action, intervals, old(StateOf(k)), stats[k])
        invariant forall m :: n <= m < |order| ==> StateOf(order[m]) == old(StateOf(order[m]))
      {
        var told := CheckOne(order[n], stats[order[n]]);
        effects := effects + [told];
      }
    }

    /** The body of the loop over the keys. */
    method CheckOne(k: Key, st: Stat) returns (effects: seq<Effect>)
      requires Valid() && k in order
      modifies this
      ensures Valid()
      ensures Told(StateOf(k), effects) == CheckKey(k.action, intervals, old(StateOf(k)), st)
      ensures forall j :: j in order && j != k ==> StateOf(j) == old(StateOf(j))
    {
      effects := [];
      var minSpace, minInode := devDict[k].minSpace, devDict[k].minInode;
      if minSpace.Some? && minSpace.value != 0 && st.freeSpace < minSpace.value {
        effects := CheckLowSpace(k, st);
      }
      if minInode.Some? && minInode.value != 0 && st.freeInode < minInode.value {
        if st.files == 0 {
          devDict := devDict[k := devDict[k].(minInode := None)];
          return;
        }
        var more := CheckLowInode(k, st);
        effects := effects + more;
      }
    }

    method CheckLowSpace(k: Key, st: Stat) returns (effects: seq<Effect>)
      requires Valid() && k in order
      modifies `preFreeS, `checked
      ensures Valid()
      ensures Told(StateOf(k), effects) == Report(k.action, intervals.space, old(StateOf(k)), Space, st.freeSpace)
      ensures forall j :: j in order && j != k ==> StateOf(j) == old(StateOf(j))
    {
      effects := [];
      if preFreeS[k] == 0 || (preFreeS[k] - st.freeSpace > intervals.space && !checked[k]) {
        effects := effects + [Low(Space, st.freeSpace)];
        preFreeS := preFreeS[k := st.freeSpace];
      }
      if k.action == STOPTASKS && !checked[k] {
        checked := checked[k := true];
        effects := effects + [Finish(false), DiskFull(Space, st.freeSpace)];
      } else if k.action == HALT && !checked[k] {
        checked := checked[k := true];
        effects := effects + [Finish(true), DiskFull(Space, st.freeSpace)];
      }
    }

    method CheckLowInode(k: Key, st: Stat) returns (effects: seq<Effect>)
      requires Valid() && k in order
      modifies `preFreeI, `checked
      ensures Valid()
      ensures Told(StateOf(k), effects) == Report(k.action, intervals.inode, old(StateOf(k)), Inode, st.freeInode)
      ensures forall j :: j in order && j != k ==> StateOf(j) == old(StateOf(j))
    {
      effects := [];
      if preFreeI[k] == 0 || (preFreeI[k] - st.freeInode > intervals.inode && !checked[k]) {
        effects := effects + [Low(Inode, st.freeInode)];
        preFreeI := preFreeI[k := st.freeInode];
      }
      if k.action == STOPTASKS && !checked[k] {
        checked := checked[k := true];
        effects := effects + [Finish(false), DiskFull(Inode, st.freeInode)];
      } else if k.action == HALT && !checked[k] {
        checked := checked[k := true];
        effects := effects + [Finish(true), DiskFull(Inode, st.freeInode)];
      }
    }
  }

  // ---- whole runs ----

  /** The state of a key after a run of checks, and all that was told about it. */
  function Run(action: Action, i: Intervals, s: KeyState, stats: seq<Stat>): Told {
    if stats == [] then Told(s, [])
    else
      var before := Run(action, i, s, stats[..|stats| - 1]);
      var last := CheckKey(action, i, before.state, stats[|stats| - 1]);
      Told(last.state, before.effects + last.effects)
  }

  function Count(effects: seq<Effect>, p: Effect -> bool): nat {
    if effects == [] then 0 else Count(effects[..|effects| - 1], p) + if p(effects[|effects| - 1]) then 1 else 0
  }

  lemma {:induction false} CountAppended(a: seq<Effect>, b: seq<Effect>, p: Effect -> bool)
    ensures Count(a + b, p) == Count(a, p) + Count(b, p)
  {
    if b == [] {
      assert a + b == a;
    } else {
      assert (a + b)[..|a + b| - 1] == a + b[..|b| - 1];
      CountAppended(a, b[..|b| - 1], p);
    }
  }

  predicate IsFinish(e: Effect) { e.Finish? }

  /** A warning that noted a free amount, and one that noted none. */
  function IsNonzero(kind: Kind): Effect -> bool { (e: Effect) => e.Low? && e.kind == kind && e.free > 0 }
  function IsZero(kind: Kind): Effect -> bool { (e: Effect) => e.Low? && e.kind == kind && e.free == 0 }

  /** Before sample `n`, the file system has shown that it has no inode count. */
  ghost predicate NoInodeCount(s: KeyState, stats: seq<Stat>, n: nat)
    requires n <= |stats|
  {
    exists j :: 0 <= j < n && s.IsLow(Inode, stats[j].freeInode) && stats[j].files == 0
  }

  /** The check of sample `n` finds something that is too low and that counts. */
  ghost predicate Trips(s: KeyState, stats: seq<Stat>, n: nat)
    requires n < |stats|
  {
    || s.IsLow(Space, stats[n].freeSpace)
    || (s.IsLow(Inode, stats[n].freeInode) && stats[n].files != 0 && !NoInodeCount(s, stats, n))
  }

  ghost predicate TripsBefore(s: KeyState, stats: seq<Stat>, n: nat)
    requires n <= |stats|
  {
    exists j :: 0 <= j < n && Trips(s, stats, j)
  }

  lemma BeforeInPrefix(s: KeyState, stats: seq<Stat>, n: nat)
    requires n <= |stats|
    ensures NoInodeCount(s, stats[..n], n) <==> NoInodeCount(s, stats, n)
    ensures n < |stats| ==>
      (NoInodeCount(s, stats, n + 1) <==>
        NoInodeCount(s, stats, n) || (s.IsLow(Inode, stats[n].freeInode) && stats[n].files == 0))
  {
  }

  lemma TripsInPrefix(s: KeyState, stats: seq<Stat>, n: nat)
    requires n < |stats|
    ensures TripsBefore(s, stats, n + 1) <==> TripsBefore(s, stats[..n], n) || Trips(s, stats, n)
  {
    forall j | 0 <= j < n ensures Trips(s, stats[..n], j) <==> Trips(s, stats, j) {
      BeforeInPrefix(s, stats, j);
      BeforeInPrefix(s, stats[..n], j);
      assert stats[..n][..j] == stats[..j];
    }
  }

  lemma {:induction false} LimitsAfter(action: Action, i: Intervals, s: KeyState, stats: seq<Stat>)
    ensures Run(action, i, s, stats).state.limits ==
      if NoInodeCount(s, stats, |stats|) then s.limits.(minInode := None) else s.limits
  {
    if stats != [] {
      var n := |stats| - 1;
      LimitsAfter(action, i, s, stats[..n]);
      BeforeInPrefix(s, stats, n);
    }
  }

  /** The build is told to stop exactly once if some check trips and the action asks for it, and
      otherwise never; it is a halt exactly if the action says so. */
  lemma {:induction false} StopsOnceIff(action: Action, i: Intervals, s: KeyState, stats: seq<Stat>)
    requires !s.checked
    ensures var r := Run(action, i, s, stats);
            && (r.state.checked <==> !action.WARN? && TripsBefore(s, stats, |stats|))
            && Count(r.effects, IsFinish) == (if r.state.checked then 1 else 0)
            && forall e :: e in r.effects && e.Finish? ==> e.halt == action.HALT?
  {
    if stats != [] {
      var n := |stats| - 1;
      StopsOnceIff(action, i, s, stats[..n]);
      TripsInPrefix(s, stats, n);
      LimitsAfter(action, i, s, stats[..n]);
      BeforeInPrefix(s, stats, n);
      var before := Run(action, i, s, stats[..n]);
      OneCheck(action, i, before.state, stats[n]);
      CountAppended(before.effects, CheckKey(action, i, before.state, stats[n]).effects, IsFinish);
    }
  }

  lemma OneCheck(action: Action, i: Intervals, s: KeyState, st: Stat)
    ensures var r := CheckKey(action, i, s, st);
            var trips := s.IsLow(Space, st.freeSpace) || (s.IsLow(Inode, st.freeInode) && st.files != 0);
            && (r.state.checked <==> s.checked || (!action.WARN? && trips))
            && Count(r.effects, IsFinish) == (if r.state.checked && !s.checked then 1 else 0)
            && forall e :: e in r.effects && e.Finish? ==> e.halt == action.HALT?
  {
    hide Report, Count, CheckSpace, CheckInode, KeyState.IsLow;
    var a := CheckSpace(action, i, s, st);
    SpaceStops(action, i, s, st);
    InodeStops(action, i, a.state, st);
    LimitsKept(s, a.state, Inode, st.freeInode);
    CountAppended(a.effects, CheckInode(action, i, a.state, st).effects, IsFinish);
  }

  lemma SpaceStops(action: Action, i: Intervals, s: KeyState, st: Stat)
    ensures var r := CheckSpace(action, i, s, st);
            && r.state.limits == s.limits
            && (r.state.checked <==> s.checked || (!action.WARN? && s.IsLow(Space, st.freeSpace)))
            && Count(r.effects, IsFinish) == (if r.state.checked && !s.checked then 1 else 0)
            && forall e :: e in r.effects && e.Finish? ==> e.halt == action.HALT?
  {
    OneReport(action, i.space, s, Space, st.freeSpace);
    NoEffects(IsFinish);
    hide Report, Count, KeyState.IsLow;
  }

  lemma InodeStops(action: Action, i: Intervals, s: KeyState, st: Stat)
    ensures var r := CheckInode(action, i, s, st);
            && (r.state.checked <==> s.checked || (!action.WARN? && s.IsLow(Inode, st.freeInode) && st.files != 0))
            && Count(r.effects, IsFinish) == (if r.state.checked && !s.checked then 1 else 0)
            && forall e :: e in r.effects && e.Finish? ==> e.halt == action.HALT?
  {
    OneReport(action, i.inode, s, Inode, st.freeInode);
    NoEffects(IsFinish);
    hide Report, Count, KeyState.IsLow;
  }

  lemma LimitsKept(s: KeyState, t: KeyState, kind: Kind, free: nat)
    requires t.limits == s.limits
    ensures t.IsLow(kind, free) == s.IsLow(kind, free)
  {
  }

  lemma NoEffects(p: Effect -> bool)
    ensures Count([], p) == 0
  {
  }

  lemma OneReport(action: Action, interval: nat, s: KeyState, kind: Kind, free: nat)
    ensures var r := Report(action, interval, s, kind, free);
            && r.state.limits == s.limits && r.state.checked == (s.checked || !action.WARN?)
            && Count(r.effects, IsFinish) == (if action.WARN? || s.checked then 0 else 1)
            && forall e :: e in r.effects && e.Finish? ==> e.halt == action.HALT?
  {
    var stop := [Finish(action.HALT?), DiskFull(kind, free)];
    CountAppended([Low(kind, free)], stop, IsFinish);
    assert stop[..1] == [Finish(action.HALT?)];
  }

  // ---- how often a low value is warned about ----

  function Interval(i: Intervals, kind: Kind): nat { if kind.Space? then i.space else i.inode }

  /** As many warnings fit between the minimum and zero, an interval apart. */
  function Bound(min: nat, interval: nat): nat
    requires min >= 2
  {
    1 + (min - 2) / (interval + 1)
  }

  /** How many more warnings fit below the value that was noted last. */
  function Left(pre: nat, min: nat, interval: nat): nat
    requires min >= 2
  {
    if pre == 0 then Bound(min, interval) else (pre - 1) / (interval + 1)
  }

  lemma DivisionDrops(v: nat, pre: nat, d: nat)
    requires d > 0 && v >= 1 && v + d <= pre
    ensures 1 + (v - 1) / d <= (pre - 1) / d
  {
    var p, q := (v - 1) / d, (pre - 1) / d;
    assert d * p <= v - 1 && pre - 1 < d * q + d;
    if p >= q { TimesMonotone(d, q, p); }
  }

  lemma DivisionMonotone(a: nat, b: nat, d: nat)
    requires d > 0 && a <= b
    ensures a / d <= b / d
  {
    var p, q := a / d, b / d;
    assert d * p <= a && b < d * q + d;
    if p > q { TimesMonotone(d, q + 1, p); }
  }

  lemma TimesMonotone(d: nat, p: nat, q: nat)
    requires p <= q
    ensures d * p <= d * q
    ensures d * (p + 1) == d * p + d
  {
  }

  /** The state is that of a key whose minimum for `kind` is `min`, or has been dropped. */
  predicate Guards(s: KeyState, kind: Kind, min: nat) { s.Min(kind) == Some(min) || s.Min(kind) == None }

  /** One report: what it adds to the two counts, and to the room that is left. */
  lemma ReportCounts(action: Action, interval: nat, s: KeyState, reported: Kind, free: nat, kind: Kind, min: nat)
    requires min >= 2 && (reported == kind ==> free < min)
    ensures var r := Report(action, interval, s, reported, free);
            var more, zero := Count(r.effects, IsNonzero(kind)), Count(r.effects, IsZero(kind));
            && (reported != kind ==> more == 0 && zero == 0 && r.state.Pre(kind) == s.Pre(kind))
            && (reported == kind ==>
                  && more + zero == (if s.Pre(kind) == 0 || (s.Pre(kind) - free > interval && !s.checked) then 1 else 0)
                  && r.state.Pre(kind) == (if more + zero == 1 then free else s.Pre(kind))
                  && (zero == 1 <==> more + zero == 1 && free == 0)
                  && Left(r.state.Pre(kind), min, interval) + more
                       <= Left(s.Pre(kind), min, interval) + (if zero == 1 then Bound(min, interval) else 0))
  {
    var low, stop := [Low(reported, free)], [Finish(action.HALT?), DiskFull(reported, free)];
    assert stop[..1] == [Finish(action.HALT?)];
    CountAppended(low, stop, IsNonzero(kind));
    CountAppended(low, stop, IsZero(kind));
    assert low[..0] == [];
    if reported == kind && free > 0 {
      if s.Pre(kind) == 0 {
        DivisionMonotone(free - 1, min - 2, interval + 1);
      } else if s.Pre(kind) - free > interval {
        DivisionDrops(free, s.Pre(kind), interval + 1);
      }
    }
  }

  /** Warnings are paid for by the room they leave; one that noted zero makes all the room again. */
  ghost predicate Paid(s: KeyState, r: Told, kind: Kind, min: nat, interval: nat)
    requires min >= 2
  {
    && Guards(r.state, kind, min)
    && Count(r.effects, IsNonzero(kind)) + Left(r.state.Pre(kind), min, interval)
         <= Left(s.Pre(kind), min, interval) + Count(r.effects, IsZero(kind)) * Bound(min, interval)
  }

  lemma PaidThen(s: KeyState, a: Told, b: Told, kind: Kind, min: nat, interval: nat)
    requires min >= 2 && Paid(s, a, kind, min, interval) && Paid(a.state, b, kind, min, interval)
    ensures Paid(s, Told(b.state, a.effects + b.effects), kind, min, interval)
  {
    CountAppended(a.effects, b.effects, IsNonzero(kind));
    CountAppended(a.effects, b.effects, IsZero(kind));
    Distributes(Count(a.effects, IsZero(kind)), Count(b.effects, IsZero(kind)), Bound(min, interval));
    hide Bound, Left, Count;
  }

  lemma Distributes(a: nat, b: nat, c: nat)
    ensures (a + b) * c == a * c + b * c
  {
  }

  lemma PaidReport(action: Action, i: Intervals, s: KeyState, reported: Kind, free: nat, kind: Kind, min: nat)
    requires min >= 2 && Guards(s, kind, min) && s.IsLow(reported, free)
    ensures Paid(s, Report(action, Interval(i, reported), s, reported, free), kind, min, Interval(i, kind))
  {
    hide Report, Count, Bound, Left, IsNonzero, IsZero;
    OneReport(action, Interval(i, reported), s, reported, free);
    ReportCounts(action, Interval(i, reported), s, reported, free, kind, min);
  }

  lemma PaidCheck(action: Action, i: Intervals, s: KeyState, st: Stat, kind: Kind, min: nat)
    requires min >= 2 && Guards(s, kind, min)
    ensures Paid(s, CheckKey(action, i, s, st), kind, min, Interval(i, kind))
  {
    var a := CheckSpace(action, i, s, st);
    PaidSpace(action, i, s, st, kind, min);
    PaidInode(action, i, a.state, st, kind, min);
    PaidThen(s, a, CheckInode(action, i, a.state, st), kind, min, Interval(i, kind));
    hide CheckSpace, CheckInode, Paid;
  }

  lemma PaidSpace(action: Action, i: Intervals, s: KeyState, st: Stat, kind: Kind, min: nat)
    requires min >= 2 && Guards(s, kind, min)
    ensures Paid(s, CheckSpace(action, i, s, st), kind, min, Interval(i, kind))
    ensures Guards(CheckSpace(action, i, s, st).state, kind, min)
  {
    if s.IsLow(Space, st.freeSpace) { PaidReport(action, i, s, Space, st.freeSpace, kind, min); }
  }

  lemma PaidInode(action: Action, i: Intervals, s: KeyState, st: Stat, kind: Kind, min: nat)
    requires min >= 2 && Guards(s, kind, min)
    ensures Paid(s, CheckInode(action, i, s, st), kind, min, Interval(i, kind))
  {
    if s.IsLow(Inode, st.freeInode) { PaidReport(action, i, s, Inode, st.freeInode, kind, min); }
  }

  /** In any run, the warnings about a nonzero low value fit the bound between any two that noted zero. */
  lemma {:induction false} RunIsPaid(action: Action, i: Intervals, s: KeyState, stats: seq<Stat>, kind: Kind, min: nat)
    requires min >= 2 && Guards(s, kind, min)
    ensures Paid(s, Run(action, i, s, stats), kind, min, Interval(i, kind))
  {
    if stats != [] {
      var n := |stats| - 1;
      RunIsPaid(action, i, s, stats[..n], kind, min);
      var before := Run(action, i, s, stats[..n]);
      PaidCheck(action, i, before.state, stats[n], kind, min);
      PaidThen(s, before, CheckKey(action, i, before.state, stats[n]), kind, min, Interval(i, kind));
      hide Paid, CheckKey;
    }
  }

  predicate Fresh(s: KeyState) { s.preFreeS == 0 && s.preFreeI == 0 && !s.checked }

  lemma WarningsBounded(action: Action, i: Intervals, s: KeyState, stats: seq<Stat>, kind: Kind, min: nat)
    requires min >= 2 && s.Min(kind) == Some(min) && Fresh(s)
    ensures var effects := Run(action, i, s, stats).effects;
      Count(effects, IsNonzero(kind)) <= (Count(effects, IsZero(kind)) + 1) * Bound(min, Interval(i, kind))
  {
    hide Run, Count, Bound, IsNonzero, IsZero;
    RunIsPaid(action, i, s, stats, kind, min);
    var effects := Run(action, i, s, stats).effects;
    Distributes(Count(effects, IsZero(kind)), 1, Bound(min, Interval(i, kind)));
  }

  // ---- exactly when zero does not matter ----

  /** A warning has been given, and no other will follow. */
  predicate Quiet(action: Action, s: KeyState, kind: Kind, min: nat, interval: nat) {
    0 < s.Pre(kind) < min && if action.WARN? then min <= interval + 1 else s.checked
  }

  /** No warning about a nonzero value yet, or one and no more to come. */
  ghost predicate AtMostOne(action: Action, r: Told, kind: Kind, min: nat, interval: nat) {
    var more := Count(r.effects, IsNonzero(kind));
    Guards(r.state, kind, min) &&
      ((more == 0 && r.state.Pre(kind) == 0) || (more == 1 && Quiet(action, r.state, kind, min, interval)))
  }

  lemma AtMostOneThen(action: Action, i: Intervals, before: Told, reported: Kind, free: nat, kind: Kind, min: nat)
    requires min >= 2 && AtMostOne(action, before, kind, min, Interval(i, kind))
    requires action.WARN? ==> min <= Interval(i, kind) + 1
    requires before.state.IsLow(reported, free)
    ensures var r := Report(action, Interval(i, reported), before.state, reported, free);
      AtMostOne(action, Told(r.state, before.effects + r.effects), kind, min, Interval(i, kind))
  {
    var r := Report(action, Interval(i, reported), before.state, reported, free);
    CountAppended(before.effects, r.effects, IsNonzero(kind));
    OneReport(action, Interval(i, reported), before.state, reported, free);
    ReportCounts(action, Interval(i, reported), before.state, reported, free, kind, min);
    hide Report, Count, Left, Bound;
  }

  lemma {:induction false} RunAtMostOne(action: Action, i: Intervals, s: KeyState, stats: seq<Stat>, kind: Kind, min: nat)
    requires min >= 2 && s.Min(kind) == Some(min) && Fresh(s)
    requires action.WARN? ==> min <= Interval(i, kind) + 1
    ensures AtMostOne(action, Run(action, i, s, stats), kind, min, Interval(i, kind))
  {
    if stats != [] {
      var n := |stats| - 1;
      RunAtMostOne(action, i, s, stats[..n], kind, min);
      CheckAtMostOne(action, i, Run(action, i, s, stats[..n]), stats[n], kind, min);
    }
  }

  lemma CheckAtMostOne(action: Action, i: Intervals, before: Told, st: Stat, kind: Kind, min: nat)
    requires min >= 2 && AtMostOne(action, before, kind, min, Interval(i, kind))
    requires action.WARN? ==> min <= Interval(i, kind) + 1
    ensures var r := CheckKey(action, i, before.state, st);
      AtMostOne(action, Told(r.state, before.effects + r.effects), kind, min, Interval(i, kind))
  {
    var a := CheckSpace(action, i, before.state, st);
    var mid := Told(a.state, before.effects + a.effects);
    SpaceAtMostOne(action, i, before, st, kind, min);
    InodeAtMostOne(action, i, mid, st, kind, min);
    AppendAssociates(before.effects, a.effects, CheckInode(action, i, a.state, st).effects);
    hide AtMostOne, CheckSpace, CheckInode;
  }

  lemma SpaceAtMostOne(action: Action, i: Intervals, before: Told, st: Stat, kind: Kind, min: nat)
    requires min >= 2 && AtMostOne(action, before, kind, min, Interval(i, kind))
    requires action.WARN? ==> min <= Interval(i, kind) + 1
    ensures var r := CheckSpace(action, i, before.state, st);
      AtMostOne(action, Told(r.state, before.effects + r.effects), kind, min, Interval(i, kind))
  {
    assert before.effects + [] == before.effects;
    if before.state.IsLow(Space, st.freeSpace) { AtMostOneThen(action, i, before, Space, st.freeSpace, kind, min); }
  }

  lemma InodeAtMostOne(action: Action, i: Intervals, before: Told, st: Stat, kind: Kind, min: nat)
    requires min >= 2 && AtMostOne(action, before, kind, min, Interval(i, kind))
    requires action.WARN? ==> min <= Interval(i, kind) + 1
    ensures var r := CheckInode(action, i, before.state, st);
      AtMostOne(action, Told(r.state, before.effects + r.effects), kind, min, Interval(i, kind))
  {
    assert before.effects + [] == before.effects;
    if before.state.IsLow(Inode, st.freeInode) { AtMostOneThen(action, i, before, Inode, st.freeInode, kind, min); }
  }

  /** Free space that keeps going away and coming back. */
  function Sawtooth(min: nat, n: nat): seq<Stat>
    requires min >= 2
  {
    if n == 0 then [] else Sawtooth(min, n - 1) + [Stat(min - 1, min - 1, 1), Stat(0, 0, 1)]
  }

  /** A check of a key that only warns, with one free amount for both kinds. */
  lemma WarnCheck(i: Intervals, s: KeyState, free: nat, kind: Kind, min: nat)
    requires min >= 2 && s.Min(kind) == Some(min) && !s.checked && free < min
    ensures var r := CheckKey(WARN, i, s, Stat(free, free, 1));
            var warns := s.Pre(kind) == 0 || s.Pre(kind) - free > Interval(i, kind);
            && r.state.limits == s.limits && !r.state.checked
            && r.state.Pre(kind) == (if warns then free else s.Pre(kind))
            && Count(r.effects, IsNonzero(kind)) == if warns && free > 0 then 1 else 0
  {
    var a := CheckSpace(WARN, i, s, Stat(free, free, 1));
    var b := CheckInode(WARN, i, a.state, Stat(free, free, 1));
    WarnReport(i.space, s, Space, free, kind);
    WarnReport(i.inode, a.state, Inode, free, kind);
    assert Count([], IsNonzero(kind)) == 0;
    CountAppended(a.effects, b.effects, IsNonzero(kind));
    hide Report, Count;
    assert kind.Space? ==> a == Report(WARN, i.space, s, Space, free) && b.state.Pre(kind) == a.state.Pre(kind);
    assert kind.Inode? ==> b == Report(WARN, i.inode, a.state, Inode, free) && a.state.Pre(kind) == s.Pre(kind);
    hide CheckSpace, CheckInode, KeyState.IsLow;
  }

  lemma WarnReport(interval: nat, s: KeyState, reported: Kind, free: nat, kind: Kind)
    ensures var r := Report(WARN, interval, s, reported, free);
            var warns := s.Pre(reported) == 0 || (s.Pre(reported) - free > interval && !s.checked);
            && r.state.limits == s.limits && r.state.checked == s.checked
            && r.state.Pre(kind) == (if warns && kind == reported then free else s.Pre(kind))
            && Count(r.effects, IsNonzero(kind)) == if warns && kind == reported && free > 0 then 1 else 0
  {
  }

  lemma MinKept(s: KeyState, t: KeyState, kind: Kind)
    requires t.limits == s.limits
    ensures t.Min(kind) == s.Min(kind)
  {
  }

  lemma OneTooth(i: Intervals, s: KeyState, kind: Kind, min: nat)
    requires min >= 2 && s.Min(kind) == Some(min) && s.Pre(kind) == 0 && !s.checked && min > Interval(i, kind) + 1
    ensures var a := CheckKey(WARN, i, s, Stat(min - 1, min - 1, 1));
            var b := CheckKey(WARN, i, a.state, Stat(0, 0, 1));
            && b.state.Pre(kind) == 0 && !b.state.checked && b.state.limits == s.limits
            && Count(a.effects, IsNonzero(kind)) + Count(b.effects, IsNonzero(kind)) == 1
  {
    hide CheckKey, Count, IsNonzero;
    var a := CheckKey(WARN, i, s, Stat(min - 1, min - 1, 1));
    WarnCheck(i, s, min - 1, kind, min);
    MinKept(s, a.state, kind);
    WarnCheck(i, a.state, 0, kind, min);
  }

  lemma RunTwo(action: Action, i: Intervals, s: KeyState, stats: seq<Stat>, x: Stat, y: Stat)
    ensures var r := Run(action, i, s, stats);
            var a := CheckKey(action, i, r.state, x);
            var b := CheckKey(action, i, a.state, y);
            Run(action, i, s, stats + [x, y]) == Told(b.state, (r.effects + a.effects) + b.effects)
  {
    hide CheckKey;
    var whole := stats + [x, y];
    assert whole[..|whole| - 1] == stats + [x] && (stats + [x])[..|stats|] == stats;
  }

  /** Each time it comes back there is another warning. */
  lemma {:induction false} SawtoothWarns(i: Intervals, s: KeyState, kind: Kind, min: nat, n: nat)
    requires min >= 2 && s.Min(kind) == Some(min) && Fresh(s) && min > Interval(i, kind) + 1
    ensures var r := Run(WARN, i, s, Sawtooth(min, n));
            && r.state.Pre(kind) == 0 && !r.state.checked && r.state.limits == s.limits
            && Count(r.effects, IsNonzero(kind)) == n
  {
    hide CheckKey, Count, Run, IsNonzero;
    if n > 0 {
      SawtoothWarns(i, s, kind, min, n - 1);
      var stats, up, down := Sawtooth(min, n - 1), Stat(min - 1, min - 1, 1), Stat(0, 0, 1);
      var r := Run(WARN, i, s, stats);
      var a := CheckKey(WARN, i, r.state, up);
      var b := CheckKey(WARN, i, a.state, down);
      RunTwo(WARN, i, s, stats, up, down);
      MinKept(s, r.state, kind);
      OneTooth(i, r.state, kind, min);
      CountAppended(r.effects, a.effects, IsNonzero(kind));
      CountAppended(r.effects + a.effects, b.effects, IsNonzero(kind));
    } else {
      NothingYet(i, s, kind);
    }
  }

  lemma NonzeroAtMostOne(action: Action, i: Intervals, s: KeyState, stats: seq<Stat>, kind: Kind, min: nat)
    requires min >= 2 && s.Min(kind) == Some(min) && Fresh(s)
    requires action.WARN? ==> min <= Interval(i, kind) + 1
    ensures Count(Run(action, i, s, stats).effects, IsNonzero(kind)) <= 1
  {
    RunAtMostOne(action, i, s, stats, kind, min);
  }

  /** Without further conditions, the bound holds in every run exactly if the action stops the build or
      the minimum is within an interval of zero: otherwise a warning that notes zero starts over. */
  lemma BoundHoldsIff(action: Action, i: Intervals, s: KeyState, kind: Kind, min: nat)
    requires min >= 2 && s.Min(kind) == Some(min) && Fresh(s)
    ensures (forall stats :: Count(Run(action, i, s, stats).effects, IsNonzero(kind)) <= Bound(min, Interval(i, kind)))
      <==> !action.WARN? || min <= Interval(i, kind) + 1
  {
    assert 1 <= Bound(min, Interval(i, kind));
    hide Run, Count, Bound;
    if !action.WARN? || min <= Interval(i, kind) + 1 {
      forall stats ensures Count(Run(action, i, s, stats).effects, IsNonzero(kind)) <= Bound(min, Interval(i, kind)) {
        NonzeroAtMostOne(action, i, s, stats, kind, min);
      }
    } else {
      var n := Bound(min, Interval(i, kind)) + 1;
      SawtoothWarns(i, s, kind, min, n);
      assert Count(Run(action, i, s, Sawtooth(min, n)).effects, IsNonzero(kind)) == n;
    }
  }

  /** `n` values a step apart, and then `low`: each just low enough to be warned about again. */
  function Descent(low: nat, step: nat, n: nat): seq<Stat>
    decreases n
  {
    (if n == 0 then [] else Descent(low + step, step, n - 1)) + [Stat(low, low, 1)]
  }

  lemma TimesGrows(n: nat, step: nat)
    requires n > 0
    ensures (n - 1) * step == n * step - step
  {
  }

  lemma {:induction false} DescentWarns(i: Intervals, s: KeyState, kind: Kind, min: nat, low: nat, n: nat)
    requires min >= 2 && s.Min(kind) == Some(min) && Fresh(s)
    requires low > 0 && low + n * (Interval(i, kind) + 1) < min
    ensures var r := Run(WARN, i, s, Descent(low, Interval(i, kind) + 1, n));
            && r.state.Pre(kind) == low && !r.state.checked && r.state.limits == s.limits
            && Count(r.effects, IsNonzero(kind)) == n + 1
    decreases n
  {
    hide CheckKey, Count, Run, Descent, KeyState.Pre, KeyState.Min, IsNonzero;
    var step := Interval(i, kind) + 1;
    DescentEnds(low, step, n);
    if n == 0 {
      NothingYet(i, s, kind);
      OneMoreWarning(i, s, [], kind, min, low, 0);
    } else {
      TimesGrows(n, step);
      DescentWarns(i, s, kind, min, low + step, n - 1);
      OneMoreWarning(i, s, Descent(low + step, step, n - 1), kind, min, low, n);
    }
  }

  lemma DescentEnds(low: nat, step: nat, n: nat)
    ensures Descent(low, step, n) == (if n == 0 then [] else Descent(low + step, step, n - 1)) + [Stat(low, low, 1)]
  {
  }

  lemma NothingYet(i: Intervals, s: KeyState, kind: Kind)
    requires Fresh(s)
    ensures Run(WARN, i, s, []) == Told(s, []) && s.Pre(kind) == 0 && Count([], IsNonzero(kind)) == 0
  {
  }

  lemma OneMoreWarning(i: Intervals, s: KeyState, stats: seq<Stat>, kind: Kind, min: nat, free: nat, n: nat)
    requires min >= 2 && s.Min(kind) == Some(min) && Fresh(s) && 0 < free < min
    requires var r := Run(WARN, i, s, stats);
             && (r.state.Pre(kind) == 0 || r.state.Pre(kind) - free > Interval(i, kind))
             && !r.state.checked && r.state.limits == s.limits && Count(r.effects, IsNonzero(kind)) == n
    ensures var r := Run(WARN, i, s, stats + [Stat(free, free, 1)]);
            && r.state.Pre(kind) == free && !r.state.checked && r.state.limits == s.limits
            && Count(r.effects, IsNonzero(kind)) == n + 1
  {
    var r := Run(WARN, i, s, stats);
    WarnCheck(i, r.state, free, kind, min);
    CountAppended(r.effects, CheckKey(WARN, i, r.state, Stat(free, free, 1)).effects, IsNonzero(kind));
    assert (stats + [Stat(free, free, 1)])[..|stats|] == stats;
    hide CheckKey, Count;
  }

  predicate AllPositive(stats: seq<Stat>) { forall st :: st in stats ==> st.freeSpace > 0 && st.freeInode > 0 }

  /** The bound cannot be lowered, even where nothing runs out altogether. */
  lemma BoundIsReached(i: Intervals, s: KeyState, kind: Kind, min: nat)
    requires min >= 2 && s.Min(kind) == Some(min) && Fresh(s)
    ensures exists stats :: AllPositive(stats) &&
              Count(Run(WARN, i, s, stats).effects, IsNonzero(kind)) == Bound(min, Interval(i, kind))
  {
    hide Run, Count, Descent, IsNonzero;
    var step := Interval(i, kind) + 1;
    var n := (min - 2) / step;
    QuotientFits(min - 2, step);
    var low := min - 1 - n * step;
    DescentWarns(i, s, kind, min, low, n);
    DescentPositive(low, step, n);
    assert Count(Run(WARN, i, s, Descent(low, step, n)).effects, IsNonzero(kind)) == Bound(min, Interval(i, kind));
  }

  lemma QuotientFits(a: nat, d: nat)
    requires d > 0
    ensures (a / d) * d <= a
  {
  }

  lemma {:induction false} DescentPositive(low: nat, step: nat, n: nat)
    requires low > 0
    ensures AllPositive(Descent(low, step, n))
    decreases n
  {
    if n > 0 { DescentPositive(low + step, step, n - 1); }
  }
}
