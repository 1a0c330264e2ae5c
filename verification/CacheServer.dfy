/** poky/bitbake/lib/bb/cache.py: the body of `save_merge` and `merge_data`, run under the exclusive
    lock, and its place in the protocol of `SharedCache`. */
module CacheServer {
  import opened Lists
  import opened SharedCache

  /** The tables after taking in the files of `order`, one after the other. */
  function MergedAll(data: Data, files: map<nat, Content>, order: seq<nat>, version: int): (d: Data)
    requires forall f :: f in order ==> f in files
    requires forall f :: f in order && files[f].Saved? && files[f].version == version ==> |files[f].data| == |data|
    ensures |d| == |data|
  {
    if order == [] then data
    else
      var f, front := order[|order| - 1], order[..|order| - 1];
      var d := MergedAll(data, files, front, version);
      if files[f].Saved? && files[f].version == version then MergeData(files[f].data, d) else d
  }

  class MultiProcessCache {
    const version: int
    var cachedata: Data

    constructor (version: int, cachedata: Data)
      ensures this.version == version && this.cachedata == cachedata
    {
      this.version, this.cachedata := version, cachedata;
    }

    method MergeInto(source: Data)
      requires |source| >= |cachedata|
      modifies this
      ensures cachedata == MergeData(source, old(cachedata))
    {
      ghost var n := |cachedata|;
      for j := 0 to |cachedata|
        invariant |cachedata| == n
        invariant forall i :: 0 <= i < n ==>
          cachedata[i] == if i < j then MergeTable(source[i], old(cachedata)[i]) else old(cachedata)[i]
      {
        var table := MergeOne(source[j], cachedata[j]);
        cachedata := cachedata[j := table];
      }
    }

    method MergeOne(source: Table, dest: Table) returns (table: Table)
      ensures table == MergeTable(source, dest)
    {
      table := dest;
      var todo := source.Keys;
      while todo != {}
        invariant todo <= source.Keys
        invariant forall k :: k in table <==> k in dest || (k in source && k !in todo)
        invariant forall k :: k in table ==> table[k] == if k in dest then dest[k] else source[k]
        decreases todo
      {
        var h :| h in todo;
        if h !in table {
          table := table[h := source[h]];
        }
        todo := todo - {h};
      }
    }

    /** Everything in the directory listing is taken in or discarded, and unlinked. */
    method SaveMerge(files: map<nat, Content>, listing: seq<nat>) returns (left: map<nat, Content>, main: Content)
      requires NoDuplicates(listing) && forall f :: f in listing ==> f in files
      requires forall f :: f in files && files[f].Saved? && files[f].version == version ==> |files[f].data| == |cachedata|
      modifies this
      ensures cachedata == MergedAll(old(cachedata), files, listing, version)
      ensures main == Saved(cachedata, version)
      ensures left == map f | f in files && f !in listing :: files[f]
    {
      left := files;
      ghost var data := cachedata;
      for i := 0 to |listing|
        invariant forall f :: f in left <==> f in files && f !in listing[..i]
        invariant forall f :: f in left ==> left[f] == files[f]
        invariant cachedata == MergedAll(data, files, listing[..i], version)
      {
        var f := listing[i];
        PrefixGrows(listing, i);
        assert listing[..i + 1][..i] == listing[..i];
        assert f !in listing[..i];
        if left[f].Saved? && left[f].version == version {
          MergeInto(left[f].data);
        }
        left := left - {f};
      }
      assert listing[..|listing|] == listing;
      main := Saved(cachedata, version);
    }
  }

  /** The protocol steps of one merge. */
  function MergeSteps(n: nat): seq<Step> {
    if n == 0 then [Truncate, Store] else [MergeFile] + MergeSteps(n - 1)
  }

  /** In the protocol, a merge that starts on some state is a run that stores exactly what the
      method computes, and leaves no file behind. */
  lemma MergeIsOneRun(s: System, order: seq<nat>)
    requires Inv(s) && Enabled(s, LockAll(order))
    ensures var t := Apply(s, LockAll(order));
            && IsRun(t, MergeSteps(|order|))
            && After(t, MergeSteps(|order|)).main == Saved(MergedAll(s.data, s.files, order, s.version), s.version)
            && After(t, MergeSteps(|order|)).files == map[]
  {
    MergeStarts(s, order);
    hide Inv, Enabled, Partway, Apply, IsRun, After, MergeSteps, MergedAll;
    MergeRunFrom(Apply(s, LockAll(order)), s, order, 0);
    assert order[..|order|] == order;
  }

  lemma MergeStarts(s: System, order: seq<nat>)
    requires Inv(s) && Enabled(s, LockAll(order))
    ensures Mergeable(s, order) && Partway(Apply(s, LockAll(order)), s, order, 0)
  {
    StepKeepsInv(s, LockAll(order));
    hide NothingLost, Locked, Excluded, OwnFile, Retried, MainStored, MergerReady;
  }

  /** The files of `order` are there, and those of this version have as many tables as the cache. */
  ghost predicate Mergeable(s: System, order: seq<nat>) {
    && (forall f :: f in order ==> f in s.files)
    && forall f :: f in order && s.files[f].Saved? && s.files[f].version == s.version ==> |s.files[f].data| == |s.data|
  }

  /** What the method computes from the first `i` files. */
  ghost function MergedFirst(s: System, order: seq<nat>, i: nat): Data
    requires Mergeable(s, order) && i <= |order|
  {
    MergedAll(s.data, s.files, order[..i], s.version)
  }

  /** A merge of `order` that began in `s` has taken in the first `i` files. */
  ghost predicate Partway(t: System, s: System, order: seq<nat>, i: nat)
    requires Mergeable(s, order)
  {
    && Inv(t) && i <= |order| && t.merger == Merging(order[i..]) && t.version == s.version
    && (forall f :: f in t.files ==> f in s.files && t.files[f] == s.files[f])
    && t.data == MergedFirst(s, order, i)
  }

  ghost predicate Finishes(t: System, data: Data, version: int, n: nat) {
    && IsRun(t, MergeSteps(n)) && After(t, MergeSteps(n)).main == Saved(data, version)
    && After(t, MergeSteps(n)).files == map[]
  }

  lemma {:induction false} MergeRunFrom(t: System, s: System, order: seq<nat>, i: nat)
    requires Mergeable(s, order) && i <= |order| && Partway(t, s, order, i)
    ensures Finishes(t, MergedFirst(s, order, |order|), s.version, |order| - i)
    decreases |order| - i
  {
    hide *;
    if i == |order| {
      AllMerged(t, s, order);
    } else {
      OneMore(t, s, order, i);
      MergeRunFrom(Apply(t, MergeFile), s, order, i + 1);
      StepFirst(t, MergedFirst(s, order, |order|), s.version, |order| - i - 1);
    }
  }

  lemma AllMerged(t: System, s: System, order: seq<nat>)
    requires Mergeable(s, order) && Partway(t, s, order, |order|)
    ensures Finishes(t, MergedFirst(s, order, |order|), s.version, 0)
  {
    hide Inv, IsRun, After, MergeSteps, MergedAll;
    StoreRun(t);
  }

  lemma FileMerged(t: System)
    requires Inv(t) && t.merger.Merging? && t.merger.todo != []
    ensures WellSized(t) && Enabled(t, MergeFile) && Inv(Apply(t, MergeFile))
  {
    assert t.merger.todo[0] in Elements(t.merger.todo);
    StepKeepsInv(t, MergeFile);
  }

  /** Merging the next file takes in one more entry of the listing. */
  lemma OneMore(t: System, s: System, order: seq<nat>, i: nat)
    requires Mergeable(s, order) && Partway(t, s, order, i) && i < |order|
    ensures WellSized(t) && Enabled(t, MergeFile) && Partway(Apply(t, MergeFile), s, order, i + 1)
  {
    hide NothingLost, Locked, Excluded, OwnFile, Retried, MainStored, MergerReady, MergeData, Inv;
    FileMerged(t);
    assert order[..i + 1][..i] == order[..i];
    assert order[i..][1..] == order[i + 1..];
  }

  lemma StepFirst(t: System, data: Data, version: int, n: nat)
    requires WellSized(t) && Enabled(t, MergeFile) && Finishes(Apply(t, MergeFile), data, version, n)
    ensures Finishes(t, data, version, n + 1)
  {
    FirstStep(t, MergeFile, MergeSteps(n));
    hide WellSized, Enabled, Apply;
  }

  lemma FirstStep(t: System, step: Step, rest: seq<Step>)
    requires WellSized(t) && Enabled(t, step) && IsRun(Apply(t, step), rest)
    ensures IsRun(t, [step] + rest) && After(t, [step] + rest) == After(Apply(t, step), rest)
  {
    hide WellSized, Enabled, Apply;
    assert ([step] + rest)[1..] == rest;
  }

  lemma StoreRun(t: System)
    requires Inv(t) && t.merger == Merging([])
    ensures IsRun(t, MergeSteps(0)) && After(t, MergeSteps(0)).main == Saved(t.data, t.version)
    ensures After(t, MergeSteps(0)).files == map[]
  {
    StepKeepsInv(t, Truncate);
    var t1 := Apply(t, Truncate);
    var t2 := Apply(t1, Store);
    assert t1.files.Keys == {};
    hide Inv, IsRun, After, Apply, MergeSteps;
    NoSteps(t2);
    FirstStep(t1, Store, []);
    FirstStep(t, Truncate, [Store] + []);
    LastSteps();
  }

  lemma NoSteps(t: System)
    ensures IsRun(t, []) && After(t, []) == t
  {
  }

  lemma LastSteps()
    ensures MergeSteps(0) == [Truncate] + ([Store] + [])
  {
  }
}
