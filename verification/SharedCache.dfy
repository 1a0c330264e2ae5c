/** poky/bitbake/lib/bb/cache.py, `MultiProcessCache`: worker processes publish what they parsed in
    files of their own (`save_extras`), one server process folds those files into the shared cache
    file (`save_merge`). Processes interleave step by step; locks and files are the shared state. */
module SharedCache {
  import opened Lists

  type Table = map<string, string>
  type Data = seq<Table>

  /** A cache file: one that cannot be unpickled, or tables with the version they were written under. */
  datatype Content = Unreadable | Saved(data: Data, version: int)

  /** One process in `save_extras`. */
  datatype WorkerPc =
    | Idle
    | Waiting               // for the shared lock
    | Seeking(index: nat)   // about to try the lock of this index
    | Holding(index: nat)   // has the index lock, has not looked for the file
    | Writing(index: nat)   // found no such file
    | Dumping(index: nat)   // opened (created, empty), not yet written
    | Written(index: nat)
    | Leaving               // index lock released

  datatype Worker = Worker(pid: nat, extras: Data, pc: WorkerPc) {
    predicate Shares() { !pc.Idle? && !pc.Waiting? }
    predicate Locks(i: nat) {
      (pc.Holding? || pc.Writing? || pc.Dumping? || pc.Written?) && pc.index == i
    }
    predicate HasIndex() { Shares() && !pc.Leaving? }
    /** Has not created its file yet. */
    predicate Unwritten() { pc.Waiting? || pc.Seeking? || pc.Holding? || pc.Writing? }
  }

  /** The server process in `save_merge`. */
  datatype MergerPc = Resting | Queued | Merging(todo: seq<nat>) | Storing | Done

  datatype System = System(
    version: int,                 // CACHE_VERSION
    workers: seq<Worker>,
    merger: MergerPc,
    data: Data,                   // the merger's cachedata
    files: map<nat, Content>,     // the extras files, by index
    locks: map<nat, nat>,         // index locks and the worker that holds each
    main: Content,                // the shared cache file
    published: set<Data>)         // every table list completely written under this version
  {
    /** The lock on the whole cache is held exclusively by the merger, or shared by workers. */
    predicate Exclusive() { merger.Merging? || merger.Storing? || merger.Done? }
    ghost predicate Shared() { exists w :: 0 <= w < |workers| && workers[w].Shares() }
    function Set(w: nat, pc: WorkerPc): System
      requires w < |workers|
    {
      this.(workers := workers[w := workers[w].(pc := pc)])
    }
  }

  /** `merge_data` on one table: an entry already in `dest` stays. */
  function MergeTable(source: Table, dest: Table): Table { source + dest }

  function MergeData(source: Data, dest: Data): (d: Data)
    requires |source| >= |dest|
    ensures |d| == |dest|
  {
    seq(|dest|, j requires 0 <= j < |dest| => MergeTable(source[j], dest[j]))
  }

  datatype Step =
    | Call(w: nat, extras: Data) | Share(w: nat) | TryLock(w: nat) | Look(w: nat)
    | Create(w: nat) | Dump(w: nat) | Unlock(w: nat) | Unshare(w: nat)
    | CallMerge | LockAll(order: seq<nat>) | MergeFile | Truncate | Store | UnlockAll

  predicate At(s: System, w: nat) { w < |s.workers| }

  ghost predicate Enabled(s: System, step: Step) {
    match step
    case Call(w, extras) => At(s, w) && s.workers[w].pc.Idle? && |extras| == |s.data|
    case Share(w) => At(s, w) && s.workers[w].pc.Waiting? && !s.Exclusive()
    case TryLock(w) => At(s, w) && s.workers[w].pc.Seeking?
    case Look(w) => At(s, w) && s.workers[w].pc.Holding?
    case Create(w) => At(s, w) && s.workers[w].pc.Writing?
    case Dump(w) => At(s, w) && s.workers[w].pc.Dumping?
    case Unlock(w) => At(s, w) && s.workers[w].pc.Written?
    case Unshare(w) => At(s, w) && s.workers[w].pc.Leaving?
    case CallMerge => s.merger.Resting?
    case LockAll(order) => s.merger.Queued? && !s.Shared() && NoDuplicates(order) && Elements(order) == s.files.Keys
    case MergeFile => s.merger.Merging? && s.merger.todo != [] && s.merger.todo[0] in s.files
    case Truncate => s.merger.Merging? && s.merger.todo == []
    case Store => s.merger.Storing?
    case UnlockAll => s.merger.Done?
  }

  ghost function Apply(s: System, step: Step): System
    requires Enabled(s, step) && WellSized(s)
  {
    match step
    case Call(w, extras) => s.(workers := s.workers[w := s.workers[w].(extras := extras, pc := Waiting)])
    case Share(w) => s.Set(w, Seeking(s.workers[w].pid))
    case TryLock(w) =>
      var i := s.workers[w].pc.index;
      if i in s.locks then s.Set(w, Seeking(i + 1))
      else s.Set(w, Holding(i)).(locks := s.locks[i := w])
    case Look(w) =>
      var i := s.workers[w].pc.index;
      if i in s.files then s.Set(w, Seeking(i + 1)).(locks := s.locks - {i})
      else s.Set(w, Writing(i))
    case Create(w) =>
      var i := s.workers[w].pc.index;
      s.Set(w, Dumping(i)).(files := s.files[i := Unreadable])
    case Dump(w) =>
      var i := s.workers[w].pc.index;
      s.Set(w, Written(i)).(files := s.files[i := Saved(s.workers[w].extras, s.version)],
                            published := s.published + {s.workers[w].extras})
    case Unlock(w) => s.Set(w, Leaving).(locks := s.locks - {s.workers[w].pc.index})
    case Unshare(w) => s.Set(w, Idle)
    case CallMerge => s.(merger := Queued)
    case LockAll(order) => s.(merger := Merging(order))
    case MergeFile =>
      var f := s.merger.todo[0];
      s.(merger := Merging(s.merger.todo[1..]), files := s.files - {f},
         data := if s.files[f].Saved? && s.files[f].version == s.version
                 then MergeData(s.files[f].data, s.data) else s.data)
    case Truncate => s.(merger := Storing, main := Unreadable)
    case Store => s.(merger := Done, main := Saved(s.data, s.version))
    case UnlockAll => s.(merger := Resting)
  }

  /** Files of the current version hold one table per table of the cache. */
  ghost predicate WellSized(s: System) {
    && (forall w :: 0 <= w < |s.workers| && !s.workers[w].pc.Idle? ==> |s.workers[w].extras| == |s.data|)
    && (forall f :: f in s.files && s.files[f].Saved? && s.files[f].version == s.version ==>
          |s.files[f].data| == |s.data|)
  }

  // ---- what every step keeps ----

  /** The whole-cache lock is never held both ways. */
  ghost predicate Excluded(s: System) { !(s.Exclusive() && s.Shared()) }

  /** An index lock is held by exactly the worker that thinks it holds it. */
  ghost predicate Locked(s: System) { HoldersListed(s) && ListedHold(s) }

  ghost predicate HoldersListed(s: System) {
    forall w :: 0 <= w < |s.workers| && s.workers[w].HasIndex() && !s.workers[w].pc.Seeking? ==>
      s.workers[w].pc.index in s.locks && s.locks[s.workers[w].pc.index] == w
  }

  ghost predicate ListedHold(s: System) {
    forall i :: i in s.locks ==> s.locks[i] < |s.workers| && s.workers[s.locks[i]].Locks(i)
  }

  /** A worker about to write has no file in its way, and the file it is writing is its own. */
  ghost predicate OwnFile(s: System, w: nat)
    requires w < |s.workers|
  {
    match s.workers[w].pc
    case Writing(i) => i !in s.files
    case Dumping(i) => i in s.files && s.files[i] == Unreadable
    case Written(i) => i in s.files && s.files[i] == Saved(s.workers[w].extras, s.version)
    case _ => true
  }

  /** Every index a worker has given up on is taken: by a file, or by another worker's lock. */
  ghost predicate Retried(s: System, w: nat)
    requires w < |s.workers|
  {
    s.workers[w].HasIndex() ==>
      && s.workers[w].pid <= s.workers[w].pc.index
      && forall j: nat :: s.workers[w].pid <= j < s.workers[w].pc.index ==> j in s.files || j in s.locks
  }

  ghost predicate OnDisk(s: System, d: Data) {
    exists f :: f in s.files && s.files[f] == Saved(d, s.version)
  }

  /** Every entry of `d` has its key in `data`. */
  ghost predicate Covered(d: Data, data: Data) {
    |d| == |data| && forall j, k :: 0 <= j < |d| && k in d[j] ==> k in data[j]
  }

  /** Nothing published is lost: it is still in a file of its own, or the merger has it. */
  ghost predicate NothingLost(s: System) {
    forall d :: d in s.published ==> OnDisk(s, d) || Covered(d, s.data)
  }

  /** Between merges the main file is whole and holds what the merger has. Before the first merge
      of this server, nothing has been taken off the disk. */
  ghost predicate MainStored(s: System) {
    s.merger.Resting? || s.merger.Queued? || s.merger.Done? ==>
      || s.main == Saved(s.data, s.version)
      || forall d :: d in s.published ==> OnDisk(s, d)
  }

  ghost predicate MergerReady(s: System) {
    && (s.merger.Merging? ==> NoDuplicates(s.merger.todo) && Elements(s.merger.todo) == s.files.Keys)
    && (s.merger.Storing? || s.merger.Done? ==> s.files.Keys == {})
    && (s.merger.Done? ==> s.main == Saved(s.data, s.version))
  }

  ghost predicate Inv(s: System) {
    && WellSized(s) && Excluded(s) && Locked(s) && MergerReady(s)
    && (forall w :: 0 <= w < |s.workers| ==> OwnFile(s, w) && Retried(s, w))
    && NothingLost(s) && MainStored(s)
  }

  /** Any leftover files, any main file; nobody is in the middle of anything. */
  ghost predicate Initial(s: System) {
    && WellSized(s)
    && (forall w :: 0 <= w < |s.workers| ==> s.workers[w].pc.Idle?)
    && s.merger.Resting? && s.locks == map[]
    && forall d :: d in s.published ==> OnDisk(s, d)
  }

  lemma InitialInv(s: System)
    requires Initial(s)
    ensures Inv(s)
  {
  }

  lemma KeepsWellSized(s: System, step: Step)
    requires Inv(s) && Enabled(s, step)
    ensures WellSized(Apply(s, step))
  {
  }

  lemma KeepsExcluded(s: System, step: Step)
    requires WellSized(s) && Excluded(s) && Enabled(s, step)
    ensures Excluded(Apply(s, step))
  {
  }

  lemma KeepsLocked(s: System, step: Step)
    requires WellSized(s) && Locked(s) && Enabled(s, step)
    ensures Locked(Apply(s, step))
  {
    KeepsHoldersListed(s, step);
    KeepsListedHold(s, step);
  }

  lemma KeepsHoldersListed(s: System, step: Step)
    requires WellSized(s) && Locked(s) && Enabled(s, step)
    ensures HoldersListed(Apply(s, step))
  {
    hide WellSized;
  }

  lemma KeepsListedHold(s: System, step: Step)
    requires WellSized(s) && ListedHold(s) && Enabled(s, step)
    ensures ListedHold(Apply(s, step))
  {
    hide WellSized;
  }

  lemma KeepsMergerReady(s: System, step: Step)
    requires WellSized(s) && Excluded(s) && MergerReady(s) && Enabled(s, step)
    ensures MergerReady(Apply(s, step))
  {
  }

  lemma TodoShrinks(todo: seq<nat>)
    requires NoDuplicates(todo) && todo != []
    ensures NoDuplicates(todo[1..]) && Elements(todo[1..]) == Elements(todo) - {todo[0]}
  {
  }

  /** While the merger works no worker is past `Waiting`; two workers never have one index. */
  lemma Apart(s: System, v: nat, w: nat)
    requires Excluded(s) && Locked(s) && v < |s.workers| && w < |s.workers|
    ensures s.Exclusive() ==> !s.workers[w].Shares()
    ensures v != w && s.workers[v].HasIndex() && s.workers[w].HasIndex()
            && !s.workers[v].pc.Seeking? && !s.workers[w].pc.Seeking?
            ==> s.workers[v].pc.index != s.workers[w].pc.index
  {
  }

  lemma KeepsOwnFile(s: System, step: Step, w: nat)
    requires WellSized(s) && Excluded(s) && Locked(s) && Enabled(s, step)
    requires w < |s.workers| && OwnFile(s, w)
    ensures OwnFile(Apply(s, step), w)
  {
    hide WellSized, MergeData;
    match step {
      case Create(v) => Apart(s, v, w);
      case Dump(v) => Apart(s, v, w);
      case MergeFile => Apart(s, w, w);
      case _ =>
    }
  }

  lemma KeepsRetried(s: System, step: Step, w: nat)
    requires WellSized(s) && Excluded(s) && Locked(s) && Enabled(s, step)
    requires forall v :: 0 <= v < |s.workers| ==> OwnFile(s, v)
    requires w < |s.workers| && Retried(s, w)
    ensures Retried(Apply(s, step), w)
  {
    hide WellSized, MergeData;
    match step {
      case Look(v) => Apart(s, v, w);
      case Unlock(v) => assert OwnFile(s, v);
      case MergeFile => Apart(s, w, w);
      case _ =>
    }
  }

  lemma MergeDataCovers(source: Data, dest: Data, d: Data)
    requires |source| == |dest|
    ensures Covered(source, MergeData(source, dest))
    ensures Covered(d, dest) ==> Covered(d, MergeData(source, dest))
  {
  }

  /** A table on disk stays there until the merger has taken it in. */
  lemma KeepsOnDisk(s: System, step: Step, d: Data)
    requires WellSized(s) && Enabled(s, step) && OnDisk(s, d)
    requires forall w :: 0 <= w < |s.workers| ==> OwnFile(s, w)
    ensures OnDisk(Apply(s, step), d) || (step.MergeFile? && Covered(d, Apply(s, step).data))
  {
    var t := Apply(s, step);
    var f :| f in s.files && s.files[f] == Saved(d, s.version);
    match step {
      case Create(v) => assert OwnFile(s, v); assert t.files[f] == s.files[f];
      case Dump(v) => assert OwnFile(s, v); assert t.files[f] == s.files[f];
      case MergeFile =>
        if f == s.merger.todo[0] {
          MergeDataCovers(d, s.data, d);
        } else {
          assert t.files[f] == s.files[f];
        }
      case _ => assert t.files[f] == s.files[f];
    }
  }

  lemma KeepsNothingLost(s: System, step: Step)
    requires WellSized(s) && Enabled(s, step) && NothingLost(s)
    requires forall w :: 0 <= w < |s.workers| ==> OwnFile(s, w)
    ensures NothingLost(Apply(s, step))
  {
    var t := Apply(s, step);
    forall d | d in t.published ensures OnDisk(t, d) || Covered(d, t.data) {
      if d !in s.published {
        assert t.files[s.workers[step.w].pc.index] == Saved(d, t.version);
      } else if OnDisk(s, d) {
        KeepsOnDisk(s, step, d);
      } else if step.MergeFile? && t.data != s.data {
        MergeDataCovers(s.files[s.merger.todo[0]].data, s.data, d);
      }
    }
  }

  lemma KeepsMainStored(s: System, step: Step)
    requires WellSized(s) && Enabled(s, step) && MergerReady(s) && MainStored(s)
    requires forall w :: 0 <= w < |s.workers| ==> OwnFile(s, w)
    ensures MainStored(Apply(s, step))
  {
    var t := Apply(s, step);
    if (t.merger.Resting? || t.merger.Queued? || t.merger.Done?) && t.main != Saved(t.data, t.version) {
      forall d | d in t.published ensures OnDisk(t, d) {
        if d !in s.published {
          assert t.files[s.workers[step.w].pc.index] == Saved(d, t.version);
        } else {
          KeepsOnDisk(s, step, d);
        }
      }
    }
  }

  /** Every step of every process, in every state the invariant allows, keeps the invariant. */
  lemma StepKeepsInv(s: System, step: Step)
    requires Inv(s) && Enabled(s, step)
    ensures Inv(Apply(s, step))
  {
    KeepsWellSized(s, step);
    KeepsExcluded(s, step);
    KeepsLocked(s, step);
    KeepsMergerReady(s, step);
    KeepsNothingLost(s, step);
    KeepsMainStored(s, step);
    forall w | 0 <= w < |s.workers| ensures OwnFile(Apply(s, step), w) && Retried(Apply(s, step), w) {
      KeepsOwnFile(s, step, w);
      KeepsRetried(s, step, w);
    }
  }

  // ---- whole runs ----

  ghost predicate IsRun(s: System, steps: seq<Step>)
    decreases |steps|
  {
    steps == [] || (WellSized(s) && Enabled(s, steps[0]) && IsRun(Apply(s, steps[0]), steps[1..]))
  }

  ghost function After(s: System, steps: seq<Step>): System
    requires IsRun(s, steps)
    decreases |steps|
  {
    if steps == [] then s else After(Apply(s, steps[0]), steps[1..])
  }

  lemma {:induction false} RunKeepsInv(s: System, steps: seq<Step>)
    requires Inv(s) && IsRun(s, steps)
    ensures Inv(After(s, steps))
    decreases |steps|
  {
    if steps != [] {
      StepKeepsInv(s, steps[0]);
      RunKeepsInv(Apply(s, steps[0]), steps[1..]);
    }
  }

  /** In any run, a worker opens its extras file only where there is none, and no step of a worker
      touches a file that another one has completely written. */
  lemma NoFileIsOverwritten(s0: System, steps: seq<Step>, step: Step)
    requires Initial(s0) && IsRun(s0, steps) && Enabled(After(s0, steps), step)
    ensures var s := After(s0, steps);
            && WellSized(s)
            && (step.Create? ==> s.workers[step.w].pc.index !in s.files)
            && (!step.MergeFile? ==> forall f :: f in s.files && s.files[f].Saved? ==>
                  f in Apply(s, step).files && Apply(s, step).files[f] == s.files[f])
  {
    InitialInv(s0);
    RunKeepsInv(s0, steps);
    var s := After(s0, steps);
    if step.Create? || step.Dump? {
      assert OwnFile(s, step.w);
    }
  }

  // ---- where the stored values come from ----

  /** What the merger had at the start, and what lay in the leftover files of this version. */
  ghost function Leftovers(s: System): set<Data> {
    {s.data} + set f | f in s.files && s.files[f].Saved? && s.files[f].version == s.version :: s.files[f].data
  }

  /** The value under this key of this table is that of one of the sources. */
  ghost predicate HasValue(sources: set<Data>, j: nat, k: string, value: string) {
    exists d :: d in sources && j < |d| && k in d[j] && d[j][k] == value
  }

  ghost predicate FromSources(sources: set<Data>, data: Data) {
    forall j: nat, k :: j < |data| && k in data[j] ==> HasValue(sources, j, k, data[j][k])
  }

  /** The merger's values come from the start or from what was published, and so do the files. */
  ghost predicate Sourced(start: set<Data>, s: System) {
    && FromSources(start + s.published, s.data)
    && forall f :: f in s.files && s.files[f].Saved? && s.files[f].version == s.version ==>
        s.files[f].data in start + s.published
  }

  /** All sources with this key in this table have the value that `d` has. */
  ghost predicate Agreed(sources: set<Data>, d: Data, j: nat, k: string) {
    && j < |d| && k in d[j]
    && forall e :: e in sources && j < |e| && k in e[j] ==> e[j][k] == d[j][k]
  }

  lemma MoreSources(sources: set<Data>, more: set<Data>, data: Data)
    requires sources <= more && FromSources(sources, data)
    ensures FromSources(more, data)
  {
    forall j: nat, k | j < |data| && k in data[j] ensures HasValue(more, j, k, data[j][k]) {
      assert HasValue(sources, j, k, data[j][k]);
    }
  }

  lemma MergedFromSources(sources: set<Data>, source: Data, dest: Data)
    requires |source| == |dest| && source in sources && FromSources(sources, dest)
    ensures FromSources(sources, MergeData(source, dest))
  {
    var m := MergeData(source, dest);
    forall j: nat, k | j < |m| && k in m[j] ensures HasValue(sources, j, k, m[j][k]) {
      if k in dest[j] {
        assert HasValue(sources, j, k, dest[j][k]);
      } else {
        assert source in sources && k in source[j] && source[j][k] == m[j][k];
      }
    }
  }

  lemma KeepsSourced(start: set<Data>, s: System, step: Step)
    requires WellSized(s) && Enabled(s, step) && Sourced(start, s)
    ensures Sourced(start, Apply(s, step))
  {
    var t := Apply(s, step);
    if step.Dump? {
      MoreSources(start + s.published, start + t.published, s.data);
    } else if step.MergeFile? {
      var f := s.merger.todo[0];
      if s.files[f].Saved? && s.files[f].version == s.version {
        MergedFromSources(start + s.published, s.files[f].data, s.data);
      }
    }
    hide FromSources;
  }

  lemma {:induction false} RunKeepsSourced(start: set<Data>, s: System, steps: seq<Step>)
    requires IsRun(s, steps) && Sourced(start, s)
    ensures Sourced(start, After(s, steps))
    decreases |steps|
  {
    if steps != [] {
      KeepsSourced(start, s, steps[0]);
      RunKeepsSourced(start, Apply(s, steps[0]), steps[1..]);
    }
  }

  /** In any run, everything published before a merge stores the main file is in that file, and every value
      in it is the merger's own, a leftover file's or a published one under the same key. So where those
      agree on a key, the stored value is the published one. */
  lemma MergedFileHasAllPublished(s0: System, steps: seq<Step>)
    requires Initial(s0) && IsRun(s0, steps) && After(s0, steps).merger.Storing?
    ensures var s := After(s0, steps);
            && WellSized(s) && Apply(s, Store).main.Saved? && Apply(s, Store).main.version == s.version
            && (forall d :: d in s.published ==> Covered(d, Apply(s, Store).main.data))
            && FromSources(Leftovers(s0) + s.published, Apply(s, Store).main.data)
            && forall d, j: nat, k :: d in s.published && Agreed(Leftovers(s0) + s.published, d, j, k) ==>
                Apply(s, Store).main.data[j][k] == d[j][k]
  {
    InitialInv(s0);
    RunKeepsInv(s0, steps);
    var s := After(s0, steps);
    forall d | d in s.published ensures Covered(d, s.data) {
      assert !OnDisk(s, d);
    }
    StartIsSourced(s0);
    RunKeepsSourced(Leftovers(s0), s0, steps);
    var sources := Leftovers(s0) + s.published;
    forall d, j: nat, k | d in s.published && Agreed(sources, d, j, k)
      ensures s.data[j][k] == d[j][k]
    {
      assert HasValue(sources, j, k, s.data[j][k]);
    }
  }

  lemma StartIsSourced(s: System)
    ensures Sourced(Leftovers(s), s)
  {
    forall j: nat, k | j < |s.data| && k in s.data[j] ensures HasValue(Leftovers(s), j, k, s.data[j][k]) {
      assert s.data in Leftovers(s);
    }
    MoreSources(Leftovers(s), Leftovers(s) + s.published, s.data);
  }

  /** Entries the merger already holds keep their value. */
  ghost predicate Extends(old': Data, new': Data) {
    |old'| == |new'| && forall j, k :: 0 <= j < |old'| && k in old'[j] ==> k in new'[j] && new'[j][k] == old'[j][k]
  }

  lemma {:induction false} RunExtendsData(s: System, steps: seq<Step>)
    requires IsRun(s, steps)
    ensures Extends(s.data, After(s, steps).data)
    decreases |steps|
  {
    if steps != [] {
      RunExtendsData(Apply(s, steps[0]), steps[1..]);
    }
  }

  /** Nobody can read a half-written main file: it is incomplete only under the exclusive lock. */
  lemma {:induction false} MainIsWholeUnlessStoring(s: System, steps: seq<Step>)
    requires IsRun(s, steps) && (s.main.Saved? || s.merger.Storing?)
    ensures After(s, steps).main.Saved? || After(s, steps).merger.Storing?
    decreases |steps|
  {
    if steps != [] {
      MainIsWholeUnlessStoring(Apply(s, steps[0]), steps[1..]);
    }
  }

  // ---- the retry loop ends ----

  /** How often a worker has retried is at most the files and index locks there are. */
  lemma RetryBound(s: System, w: nat)
    requires Inv(s) && w < |s.workers| && s.workers[w].HasIndex()
    ensures s.workers[w].pc.index - s.workers[w].pid <= |s.files| + |s.locks|
  {
    assert Retried(s, w);
    var taken := s.files.Keys + s.locks.Keys;
    IntervalSize(s.workers[w].pid, s.workers[w].pc.index, taken);
    UnionSize(s.files.Keys, s.locks.Keys);
    assert |s.files.Keys| == |s.files| && |s.locks.Keys| == |s.locks|;
  }

  lemma {:induction false} IntervalSize(lo: nat, hi: nat, taken: set<nat>)
    requires lo <= hi && forall j: nat :: lo <= j < hi ==> j in taken
    ensures hi - lo <= |taken|
    decreases hi - lo
  {
    if lo < hi {
      IntervalSize(lo + 1, hi, taken - {lo});
    }
  }

  lemma UnionSize<T>(a: set<T>, b: set<T>)
    ensures |a + b| <= |a| + |b|
  {
  }

  // ---- every run without new calls comes to rest ----

  predicate IsCall(step: Step) { step.Call? || step.CallMerge? }

  ghost predicate AtRest(s: System) {
    s.merger.Resting? && forall w :: 0 <= w < |s.workers| ==> s.workers[w].pc.Idle?
  }

  /** While any process is in the middle of something, some process can move. */
  lemma NoDeadlock(s: System)
    requires Inv(s) && !AtRest(s)
    ensures exists step :: Enabled(s, step) && !IsCall(step)
  {
    if s.merger.Merging? {
      if s.merger.todo == [] {
        assert Enabled(s, Truncate);
      } else {
        assert s.merger.todo[0] in Elements(s.merger.todo);
        assert Enabled(s, MergeFile);
      }
    } else if s.merger.Storing? {
      assert Enabled(s, Store);
    } else if s.merger.Done? {
      assert Enabled(s, UnlockAll);
    } else if s.Shared() {
      var w: nat :| w < |s.workers| && s.workers[w].Shares();
      SharerCanMove(s, w);
    } else if s.merger.Queued? {
      var order := Listing(s.files.Keys);
      assert Enabled(s, LockAll(order));
    } else {
      var w: nat :| w < |s.workers| && !s.workers[w].pc.Idle?;
      assert !s.workers[w].Shares();
      assert Enabled(s, Share(w));
    }
  }

  lemma SharerCanMove(s: System, w: nat)
    requires w < |s.workers| && s.workers[w].Shares()
    ensures exists step :: Enabled(s, step) && !IsCall(step)
  {
    var step :=
      match s.workers[w].pc
      case Seeking(i) => TryLock(w)
      case Holding(i) => Look(w)
      case Writing(i) => Create(w)
      case Dumping(i) => Dump(w)
      case Written(i) => Unlock(w)
      case _ => Unshare(w);
    assert Enabled(s, step);
  }

  lemma {:induction false} Listing(names: set<nat>) returns (order: seq<nat>)
    ensures NoDuplicates(order) && Elements(order) == names
  {
    if names == {} {
      order := [];
    } else {
      var n :| n in names;
      var rest := Listing(names - {n});
      order := [n] + rest;
      assert forall x :: x in rest <==> x in Elements(rest);
    }
  }

  lemma {:induction false} ListingSize(order: seq<nat>)
    requires NoDuplicates(order)
    ensures |Elements(order)| == |order|
  {
    if order != [] {
      TodoShrinks(order);
      ListingSize(order[1..]);
      assert order[0] in Elements(order);
    }
  }

  function Pending(workers: seq<Worker>): nat {
    if workers == [] then 0
    else Pending(workers[..|workers| - 1]) + if workers[|workers| - 1].Unwritten() then 1 else 0
  }

  /** Files there are or will be. */
  function Room(s: System): nat { |s.files| + Pending(s.workers) }

  /** No index is tried at or above this, if no process id is above `top`. */
  function IndexBound(s: System, top: nat): nat { top + Room(s) + |s.workers| + 1 }

  function Work(bound: int, w: Worker): int {
    match w.pc
    case Idle => 0
    case Waiting => 6 + 3 * (bound - w.pid)
    case Seeking(i) => 5 + 3 * (bound - i)
    case Holding(i) => 4 + 3 * (bound - i)
    case Writing(i) => 4
    case Dumping(i) => 3
    case Written(i) => 2
    case Leaving => 1
  }

  function TotalWork(bound: int, workers: seq<Worker>): int {
    if workers == [] then 0
    else TotalWork(bound, workers[..|workers| - 1]) + Work(bound, workers[|workers| - 1])
  }

  function MergerWork(s: System): nat {
    match s.merger
    case Resting => 0
    case Queued => 4 + Room(s)
    case Merging(todo) => 3 + |todo|
    case Storing => 2
    case Done => 1
  }

  function Measure(s: System, top: nat): int {
    TotalWork(IndexBound(s, top), s.workers) + MergerWork(s)
  }

  lemma {:induction false} PendingUpdate(workers: seq<Worker>, w: nat, x: Worker)
    requires w < |workers|
    ensures Pending(workers[w := x]) == Pending(workers)
              - (if workers[w].Unwritten() then 1 else 0) + (if x.Unwritten() then 1 else 0)
  {
    var n := |workers| - 1;
    if w < n {
      PendingUpdate(workers[..n], w, x);
      assert workers[w := x][..n] == workers[..n][w := x];
    } else {
      assert workers[w := x][..n] == workers[..n];
    }
  }

  lemma {:induction false} TotalUpdate(bound: int, workers: seq<Worker>, w: nat, x: Worker)
    requires w < |workers|
    ensures TotalWork(bound, workers[w := x]) == TotalWork(bound, workers) - Work(bound, workers[w]) + Work(bound, x)
  {
    var n := |workers| - 1;
    if w < n {
      TotalUpdate(bound, workers[..n], w, x);
      assert workers[w := x][..n] == workers[..n][w := x];
    } else {
      assert workers[w := x][..n] == workers[..n];
    }
  }

  lemma {:induction false} TotalMonotone(lower: int, upper: int, workers: seq<Worker>)
    requires lower <= upper
    ensures TotalWork(lower, workers) <= TotalWork(upper, workers)
  {
    if workers != [] {
      TotalMonotone(lower, upper, workers[..|workers| - 1]);
    }
  }

  /** The indices locked by the first `n` workers. */
  ghost function HeldBelow(s: System, n: nat): set<nat> {
    set i | i in s.locks && s.locks[i] < n
  }

  lemma {:induction false} LocksHeldBelow(s: System, n: nat)
    requires ListedHold(s) && n <= |s.workers|
    ensures |HeldBelow(s, n)| <= n
  {
    if n == 0 {
      assert HeldBelow(s, n) == {};
    } else {
      LocksHeldBelow(s, n - 1);
      var last: set<nat> := if s.workers[n - 1].HasIndex() then {s.workers[n - 1].pc.index} else {};
      forall i | i in HeldBelow(s, n) ensures i in HeldBelow(s, n - 1) + last {
        assert s.workers[s.locks[i]].Locks(i);
      }
      SubsetSize(HeldBelow(s, n), HeldBelow(s, n - 1) + last);
      UnionSize(HeldBelow(s, n - 1), last);
    }
  }

  lemma {:induction false} SubsetSize<T>(a: set<T>, b: set<T>)
    requires a <= b
    ensures |a| <= |b|
  {
    if a != {} {
      var x :| x in a;
      SubsetSize(a - {x}, b - {x});
    }
  }

  ghost predicate PidsUpTo(s: System, top: nat) {
    forall w :: 0 <= w < |s.workers| ==> s.workers[w].pid <= top
  }

  lemma IndexBelowBound(s: System, top: nat, w: nat)
    requires Inv(s) && PidsUpTo(s, top) && w < |s.workers|
    ensures s.workers[w].HasIndex() ==> s.workers[w].pc.index < IndexBound(s, top)
    ensures Work(IndexBound(s, top), s.workers[w]) >= 0
  {
    if s.workers[w].HasIndex() {
      RetryBound(s, w);
      LocksHeldBelow(s, |s.workers|);
      assert s.locks.Keys == HeldBelow(s, |s.workers|);
      assert |s.locks.Keys| == |s.locks|;
    }
  }

  lemma {:induction false} TotalNonNegative(s: System, top: nat, n: nat)
    requires Inv(s) && PidsUpTo(s, top) && n <= |s.workers|
    ensures TotalWork(IndexBound(s, top), s.workers[..n]) >= 0
  {
    if n > 0 {
      TotalNonNegative(s, top, n - 1);
      IndexBelowBound(s, top, n - 1);
      assert s.workers[..n][..n - 1] == s.workers[..n - 1];
    }
  }

  lemma MeasureNonNegative(s: System, top: nat)
    requires Inv(s) && PidsUpTo(s, top)
    ensures Measure(s, top) >= 0
  {
    TotalNonNegative(s, top, |s.workers|);
    assert s.workers[..|s.workers|] == s.workers;
  }

  predicate IsWorkerStep(step: Step) {
    !step.CallMerge? && !step.LockAll? && !step.MergeFile? && !step.Truncate? && !step.Store? && !step.UnlockAll?
  }

  /** A worker step other than a call changes the one worker's pc, and files as its pc says. */
  lemma WorkerStepEffect(s: System, step: Step)
    requires WellSized(s) && Enabled(s, step) && IsWorkerStep(step) && !step.Call?
    requires OwnFile(s, step.w)
    ensures var t, w := Apply(s, step), step.w;
            && t.workers == s.workers[w := s.workers[w].(pc := t.workers[w].pc)] && t.merger == s.merger
            && |t.files| == |s.files| + (if step.Create? then 1 else 0)
            && t.workers[w].Unwritten() == (s.workers[w].Unwritten() && !step.Create?)
  {
    WorkerStepWorkers(s, step);
    WorkerStepFiles(s, step);
  }

  lemma WorkerStepWorkers(s: System, step: Step)
    requires WellSized(s) && Enabled(s, step) && IsWorkerStep(step) && !step.Call?
    ensures var t, w := Apply(s, step), step.w;
            && t.workers == s.workers[w := s.workers[w].(pc := t.workers[w].pc)] && t.merger == s.merger
            && t.workers[w].Unwritten() == (s.workers[w].Unwritten() && !step.Create?)
  {
    hide WellSized;
  }

  lemma WorkerStepFiles(s: System, step: Step)
    requires WellSized(s) && Enabled(s, step) && IsWorkerStep(step) && !step.Call?
    requires OwnFile(s, step.w)
    ensures |Apply(s, step).files| == |s.files| + (if step.Create? then 1 else 0)
  {
    hide WellSized;
    match step {
      case Create(w) => PutSize(s.files, s.workers[w].pc.index, Unreadable);
      case Dump(w) => PutSize(s.files, s.workers[w].pc.index, Saved(s.workers[w].extras, s.version));
      case _ =>
    }
  }

  lemma PutSize(files: map<nat, Content>, f: nat, c: Content)
    ensures |files[f := c]| == |files| + (if f in files then 0 else 1)
  {
    assert |files[f := c].Keys| == |files[f := c]| && |files.Keys| == |files|;
    assert files[f := c].Keys == files.Keys + {f};
  }

  lemma WorkerRoomShrinks(s: System, step: Step)
    requires WellSized(s) && Enabled(s, step) && IsWorkerStep(step) && !step.Call? && At(s, step.w)
    requires OwnFile(s, step.w)
    ensures Room(Apply(s, step)) <= Room(s)
  {
    hide WellSized, OwnFile, Apply, Pending;
    var t := Apply(s, step);
    WorkerStepEffect(s, step);
    assert t.workers == s.workers[step.w := t.workers[step.w]];
    PendingUpdate(s.workers, step.w, t.workers[step.w]);
  }

  lemma MergerRoomShrinks(s: System, step: Step)
    requires WellSized(s) && Enabled(s, step) && !IsWorkerStep(step)
    ensures Room(Apply(s, step)) <= Room(s)
  {
    hide WellSized, Pending;
    if step.MergeFile? {
      var t := Apply(s, step);
      SubsetSize(t.files.Keys, s.files.Keys);
      assert |t.files.Keys| == |t.files| && |s.files.Keys| == |s.files|;
    }
  }

  lemma RoomShrinks(s: System, step: Step)
    requires Inv(s) && Enabled(s, step) && !IsCall(step)
    ensures Room(Apply(s, step)) <= Room(s)
  {
    hide Apply, WellSized, Room, OwnFile;
    if IsWorkerStep(step) { WorkerRoomShrinks(s, step); } else { MergerRoomShrinks(s, step); }
  }

  /** With the bound fixed, the worker that moves has less work left. */
  lemma WorkerWorkDecreases(s: System, step: Step, bound: int)
    requires WellSized(s) && Enabled(s, step) && IsWorkerStep(step) && !step.Call?
    requires s.workers[step.w].HasIndex() ==> s.workers[step.w].pc.index < bound
    ensures Work(bound, Apply(s, step).workers[step.w]) < Work(bound, s.workers[step.w])
  {
  }

  /** Every step but a new call brings the processes closer to rest. */
  lemma StepDecreases(s: System, step: Step, top: nat)
    requires Inv(s) && Enabled(s, step) && !IsCall(step) && PidsUpTo(s, top)
    ensures Measure(Apply(s, step), top) < Measure(s, top)
    ensures PidsUpTo(Apply(s, step), top)
  {
    RoomShrinks(s, step);
    if IsWorkerStep(step) {
      WorkerDecreases(s, step, top);
    } else {
      MergerDecreases(s, step, top);
    }
  }

  lemma WorkerDecreases(s: System, step: Step, top: nat)
    requires Inv(s) && Enabled(s, step) && IsWorkerStep(step) && !step.Call? && PidsUpTo(s, top)
    requires Room(Apply(s, step)) <= Room(s)
    ensures Measure(Apply(s, step), top) < Measure(s, top) && PidsUpTo(Apply(s, step), top)
  {
    var t, upper := Apply(s, step), IndexBound(s, top);
    assert OwnFile(s, step.w);
    WorkerStepEffect(s, step);
    IndexBelowBound(s, top, step.w);
    WorkerWorkDecreases(s, step, upper);
    TotalUpdate(upper, s.workers, step.w, t.workers[step.w]);
    TotalMonotone(IndexBound(t, top), upper, t.workers);
  }

  lemma MergerDecreases(s: System, step: Step, top: nat)
    requires Inv(s) && Enabled(s, step) && !IsCall(step) && !IsWorkerStep(step)
    requires Room(Apply(s, step)) <= Room(s)
    ensures Measure(Apply(s, step), top) < Measure(s, top) && Apply(s, step).workers == s.workers
  {
    var t := Apply(s, step);
    TotalMonotone(IndexBound(t, top), IndexBound(s, top), t.workers);
    if step.LockAll? {
      ListingSize(step.order);
      assert |s.files.Keys| == |s.files|;
    }
  }

  /** So a run without new calls has a bounded number of steps: the retry loop in particular ends. */
  lemma {:induction false} RunsWithoutCallsAreBounded(s: System, steps: seq<Step>, top: nat)
    requires Inv(s) && PidsUpTo(s, top) && IsRun(s, steps)
    requires forall i :: 0 <= i < |steps| ==> !IsCall(steps[i])
    ensures |steps| <= Measure(s, top)
    decreases |steps|
  {
    if steps == [] {
      MeasureNonNegative(s, top);
    } else {
      StepKeepsInv(s, steps[0]);
      StepDecreases(s, steps[0], top);
      RunsWithoutCallsAreBounded(Apply(s, steps[0]), steps[1..], top);
    }
  }
}
