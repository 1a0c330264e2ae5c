/** meta-phosphor settings: merging override files into a settings tree. A list or a plain value is a
    scalar, which is taken over whole. */
module Settings {
  import opened Wrappers

  datatype Yaml = Scalar(text: string) | Dict(entries: map<string, Yaml>) {
    predicate DictAt(k: string) { Dict? && k in entries && entries[k].Dict? }
  }

  /** `dict_merge` on values, with `remove=False`. */
  function Merge(t: Yaml, s: Yaml): (m: Yaml)
    requires t.Dict?
    ensures m.Dict?
    decreases s
  {
    if s.Scalar? then t
    else Dict(map k | k in t.entries.Keys + s.entries.Keys ::
      if k !in s.entries then t.entries[k]
      else if t.DictAt(k) then Merge(t.entries[k], s.entries[k])
      else s.entries[k])
  }

  // ---- the laws of merging ----

  lemma {:induction false} MergeSelf(t: Yaml)
    requires t.Dict?
    ensures Merge(t, t) == t
  {
    forall k | k in t.entries ensures Merge(t, t).entries[k] == t.entries[k] {
      if t.DictAt(k) { MergeSelf(t.entries[k]); }
    }
    assert Merge(t, t).entries == t.entries;
  }

  /** Merging the same overrides again changes nothing. */
  lemma {:induction false} MergeIdempotent(t: Yaml, s: Yaml)
    requires t.Dict?
    ensures Merge(Merge(t, s), s) == Merge(t, s)
    decreases s
  {
    if s.Dict? {
      var m := Merge(t, s);
      forall k | k in m.entries ensures Merge(m, s).entries[k] == m.entries[k] {
        if k in s.entries {
          if t.DictAt(k) {
            MergeIdempotent(t.entries[k], s.entries[k]);
          } else if s.DictAt(k) {
            MergeSelf(s.entries[k]);
          }
        }
      }
      assert Merge(m, s).entries == m.entries;
    }
  }

  /** Overrides can be merged into each other first. */
  lemma {:induction false} MergeAssociative(t: Yaml, a: Yaml, b: Yaml)
    requires t.Dict? && a.Dict?
    ensures Merge(Merge(t, a), b) == Merge(t, Merge(a, b))
    decreases b
  {
    if b.Dict? {
      var ta, ab := Merge(t, a), Merge(a, b);
      var l, r := Merge(ta, b), Merge(t, ab);
      forall k | k in l.entries ensures k in r.entries && l.entries[k] == r.entries[k] {
        if k in b.entries && t.DictAt(k) && a.DictAt(k) {
          assert ta.DictAt(k) && ab.entries[k] == Merge(a.entries[k], b.entries[k]);
          MergeAssociative(t.entries[k], a.entries[k], b.entries[k]);
        } else if k in b.entries && t.DictAt(k) {
          assert k in a.entries ==> Merge(t.entries[k], a.entries[k]) == t.entries[k];
          assert ta.entries[k] == t.entries[k] && ab.entries[k] == b.entries[k];
        }
      }
      assert l.entries == r.entries;
    }
  }

  /** The fold over the override files. */
  function MergeAll(t: Yaml, overrides: seq<Yaml>): (m: Yaml)
    requires t.Dict?
    ensures m.Dict?
  {
    if overrides == [] then t else Merge(MergeAll(t, overrides[..|overrides| - 1]), overrides[|overrides| - 1])
  }

  /** All the overrides act as one, in whatever way they are grouped. */
  lemma {:induction false} OverridesCombine(t: Yaml, first: Yaml, rest: seq<Yaml>)
    requires t.Dict? && first.Dict?
    ensures MergeAll(Merge(t, first), rest) == Merge(t, MergeAll(first, rest))
  {
    if rest != [] {
      var front, last := rest[..|rest| - 1], rest[|rest| - 1];
      OverridesCombine(t, first, front);
      MergeAssociative(t, MergeAll(first, front), last);
    }
  }

  // ---- what a path leads to ----

  function At(y: Yaml, path: seq<string>): Option<Yaml> {
    if path == [] then Some(y)
    else if y.Dict? && path[0] in y.entries then At(y.entries[path[0]], path[1..])
    else None
  }

  lemma AtIs(y: Yaml, k: string)
    ensures At(y, []) == Some(y) && At(y, [k]) == if y.Dict? && k in y.entries then Some(y.entries[k]) else None
  {
  }

  /** Where the target has a dict, it still has one, merged with what the override has there. */
  lemma {:induction false} MergeAtDict(t: Yaml, s: Yaml, path: seq<string>)
    requires t.Dict? && At(t, path).Some? && At(t, path).value.Dict?
    ensures At(Merge(t, s), path) ==
      Some(if At(s, path).Some? then Merge(At(t, path).value, At(s, path).value) else At(t, path).value)
    decreases path
  {
    if path != [] {
      var k := path[0];
      if s.Dict? && k in s.entries {
        assert At(t, path) == At(t.entries[k], path[1..]);
        DictsAbove(t.entries[k], path[1..]);
        MergeAtDict(t.entries[k], s.entries[k], path[1..]);
      }
    }
  }

  lemma DictsAbove(t: Yaml, path: seq<string>)
    requires At(t, path).Some? && At(t, path).value.Dict?
    ensures t.Dict?
  {
  }

  /** Where the target has no dict, the override's value counts if it has one, and all that is below it. */
  lemma {:induction false} MergeAtEntry(t: Yaml, s: Yaml, path: seq<string>, k: string, below: seq<string>)
    requires t.Dict? && At(t, path).Some? && At(t, path).value.Dict? && !At(t, path).value.DictAt(k)
    ensures At(Merge(t, s), path + [k] + below) ==
      if At(s, path + [k]).Some? then At(s, path + [k] + below) else At(t, path + [k] + below)
    decreases path
  {
    if path == [] {
      assert path + [k] == [k] && ([k] + below)[1..] == below;
    } else {
      var n := path[0];
      assert (path + [k])[1..] == path[1..] + [k] && (path + [k] + below)[1..] == path[1..] + [k] + below;
      assert At(t, path) == At(t.entries[n], path[1..]);
      DictsAbove(t.entries[n], path[1..]);
      if s.Dict? && n in s.entries {
        MergeAtEntry(t.entries[n], s.entries[n], path[1..], k, below);
      }
    }
  }

  // ---- with `remove=True` ----

  /** Entries of the target are popped; one that the target lacks is added, as the code has it. */
  function Remove(t: Yaml, s: Yaml): (m: Yaml)
    requires t.Dict?
    ensures m.Dict?
    decreases s
  {
    if s.Scalar? then t
    else Dict(map k | k in t.entries.Keys + s.entries.Keys &&
        (k !in t.entries || k !in s.entries || t.entries[k].Dict?) ::
      if k !in s.entries then t.entries[k]
      else if k in t.entries then Remove(t.entries[k], s.entries[k])
      else s.entries[k])
  }

  /** Nothing but dicts, all the way down. */
  predicate OnlyDicts(y: Yaml) { y.Dict? && forall k :: k in y.entries ==> OnlyDicts(y.entries[k]) }

  /** Every entry of the removal list meets a dict of the target, or is itself a tree of empty dicts
      that the target lacks. */
  predicate Settled(t: Yaml, s: Yaml)
    requires t.Dict?
    decreases s
  {
    s.Dict? ==> forall k :: k in s.entries ==>
      if k in t.entries then t.entries[k].Dict? && Settled(t.entries[k], s.entries[k]) else OnlyDicts(s.entries[k])
  }

  lemma {:induction false} RemoveSelfIff(t: Yaml)
    requires t.Dict?
    ensures Remove(t, t) == t <==> OnlyDicts(t)
  {
    var m := Remove(t, t);
    forall k | k in t.entries
      ensures (k in m.entries && m.entries[k] == t.entries[k]) <==> OnlyDicts(t.entries[k])
    {
      if t.DictAt(k) { RemoveSelfIff(t.entries[k]); }
    }
    if OnlyDicts(t) { assert m.entries == t.entries; }
  }

  /** Removing twice is removing once only in that case: what is popped comes back the second time. */
  lemma {:induction false} RemoveIdempotentIff(t: Yaml, s: Yaml)
    requires t.Dict?
    ensures Remove(Remove(t, s), s) == Remove(t, s) <==> Settled(t, s)
    decreases s
  {
    if s.Dict? {
      var m := Remove(t, s);
      var n := Remove(m, s);
      forall k | k in s.entries
        ensures (k in n.entries <==> k in m.entries) && (k in n.entries ==> n.entries[k] == m.entries[k]) <==>
          if k in t.entries then t.entries[k].Dict? && Settled(t.entries[k], s.entries[k]) else OnlyDicts(s.entries[k])
      {
        if t.DictAt(k) {
          RemoveIdempotentIff(t.entries[k], s.entries[k]);
        } else if k !in t.entries && s.DictAt(k) {
          RemoveSelfIff(s.entries[k]);
        }
      }
      if Settled(t, s) { assert n.entries == m.entries; }
    }
  }

  /** One scalar, removed and put back. */
  lemma RemovedTwiceIsBack(k: string, v: string)
    ensures var t := Dict(map[k := Scalar(v)]);
            Remove(t, t) == Dict(map[]) && Remove(Remove(t, t), t) == t
  {
    var t := Dict(map[k := Scalar(v)]);
    assert Remove(t, t).entries == map[];
    assert Remove(Remove(t, t), t).entries == t.entries;
  }

  /** `dict_merge` with either flag, and what it does for one entry of the source. */
  function Merged(t: Yaml, s: Yaml, remove: bool): (m: Yaml)
    requires t.Dict?
    ensures m.Dict?
  {
    if remove then Remove(t, s) else Merge(t, s)
  }

  function MergedEntry(t: Yaml, k: string, v: Yaml, remove: bool): (m: Yaml)
    requires t.Dict?
    ensures m.Dict?
  {
    if t.DictAt(k) then Dict(t.entries[k := Merged(t.entries[k], v, remove)])
    else if remove && k in t.entries then Dict(t.entries - {k})
    else Dict(t.entries[k := v])
  }

  lemma EntryBelow(t: Yaml, k: string, v: Yaml, remove: bool)
    requires t.DictAt(k)
    ensures MergedEntry(t, k, v, remove) == Dict(t.entries[k := Merged(t.entries[k], v, remove)])
  {
  }

  /** The entries of `s` but for `todo` have been merged into `t`. */
  ghost predicate PartlyMerged(m: Yaml, t: Yaml, s: Yaml, remove: bool, todo: set<string>)
    requires m.Dict? && t.Dict? && s.Dict?
  {
    var all := Merged(t, s, remove);
    && (forall k :: k in m.entries <==> if k in s.entries && k !in todo then k in all.entries else k in t.entries)
    && forall k :: k in m.entries ==>
      m.entries[k] == if k in s.entries && k !in todo then all.entries[k] else t.entries[k]
  }

  lemma NothingMerged(t: Yaml, s: Yaml, remove: bool)
    requires t.Dict?
    ensures if s.Dict? then PartlyMerged(t, t, s, remove, s.entries.Keys) else Merged(t, s, remove) == t
  {
  }

  lemma EntryMerged(m: Yaml, t: Yaml, s: Yaml, remove: bool, todo: set<string>, k: string)
    requires m.Dict? && t.Dict? && s.Dict? && k in todo && k in s.entries && PartlyMerged(m, t, s, remove, todo)
    ensures PartlyMerged(MergedEntry(m, k, s.entries[k], remove), t, s, remove, todo - {k})
  {
  }

  lemma AllMerged(m: Yaml, t: Yaml, s: Yaml, remove: bool)
    requires m.Dict? && t.Dict? && s.Dict? && PartlyMerged(m, t, s, remove, {})
    ensures m == Merged(t, s, remove)
  {
  }

  /** A copy of the dict `s` before the keys in `todo` are copied. */
  ghost predicate PartlyCopied(c: Yaml, s: Yaml, todo: set<string>)
    requires c.Dict? && s.Dict?
  {
    && (forall k :: k in c.entries <==> k in s.entries && k !in todo)
    && forall k :: k in c.entries ==> c.entries[k] == s.entries[k]
  }

  lemma NothingCopied(s: Yaml)
    requires s.Dict?
    ensures PartlyCopied(Dict(map[]), s, s.entries.Keys)
  {
  }

  lemma EntryCopied(c: Yaml, s: Yaml, todo: set<string>, k: string)
    requires c.Dict? && s.Dict? && k in todo && k in s.entries && PartlyCopied(c, s, todo)
    ensures PartlyCopied(Dict(c.entries[k := s.entries[k]]), s, todo - {k})
  {
  }

  lemma AllCopied(c: Yaml, s: Yaml)
    requires c.Dict? && s.Dict? && PartlyCopied(c, s, {})
    ensures c == s
  {
    assert c.entries == s.entries;
  }
}
