/** poky/bitbake/lib/bb/cache.py, class `Cache`: which cached recipes may be used without parsing. */
module RecipeCache {
  import opened Lists
  import opened Wrappers
  import opened VirtualNames

  /** The parts of a recipe's first info object that validity looks at. `checksums` are the entries
      of the checksum lists with their recorded `True` or `False`. */
  datatype Info = Info(timestamp: int, fileDepends: Option<seq<(string, int)>>, checksums: Option<seq<(string, string)>>,
                       appends: seq<string>, variants: seq<string>)

  /** The file system, unchanged over a run; a missing file has modification time 0. */
  datatype Files = Files(mtime: string -> int, present: string -> bool)

  datatype State = State(clean: set<string>, checked: set<string>, depends: map<string, seq<Info>>)

  /** What is fixed: whether caching is on, the number of cache classes, and the files. */
  datatype Setup = Setup(hasCache: bool, classes: nat, files: Files)

  predicate DependOk(u: Setup, depend: (string, int)) {
    u.files.mtime(depend.0) == depend.1
  }

  predicate ChecksumOk(u: Setup, entry: (string, string)) {
    && (entry.1 == "True" ==> u.files.present(entry.0))
    && (entry.1 == "False" ==> !u.files.present(entry.0))
  }

  /** The recipe, the files it was parsed from and its appends are as recorded. */
  ghost predicate FilesOk(u: Setup, fn: string, info: Info, appends: seq<string>) {
    && u.files.mtime(fn) != 0 && u.files.mtime(fn) == info.timestamp
    && (forall f :: f in info.fileDepends.GetOr([]) ==> DependOk(u, f))
    && (forall e :: e in info.checksums.GetOr([]) ==> ChecksumOk(u, e))
    && appends == info.appends
  }

  predicate VariantCached(u: Setup, depends: map<string, seq<Info>>, fn: string, variant: string) {
    VariantToVirtual(fn, variant) in depends && |depends[VariantToVirtual(fn, variant)]| == u.classes
  }

  ghost predicate VariantsOk(u: Setup, depends: map<string, seq<Info>>, fn: string, info: Info) {
    forall c :: c in info.variants ==> VariantCached(u, depends, fn, c)
  }

  /** All thorough checks of the cached information of `fn` succeed. */
  ghost predicate Thorough(u: Setup, depends: map<string, seq<Info>>, fn: string, appends: seq<string>) {
    && fn in depends && depends[fn] != []
    && FilesOk(u, fn, depends[fn][0], appends) && VariantsOk(u, depends, fn, depends[fn][0])
  }

  ghost function Virtuals(fn: string, info: Info): set<string> {
    set c | c in info.variants :: VariantToVirtual(fn, c)
  }

  function Removed(s: State, fn: string): State {
    s.(depends := s.depends - {fn}, clean := s.clean - {fn})
  }

  ghost function Updated(u: Setup, s: State, fn: string, appends: seq<string>): State
    requires fn in s.depends ==> s.depends[fn] != []
  {
    if !u.hasCache then s
    else
      var s1 := s.(checked := s.checked + {fn});
      if fn !in s.depends then s1
      else
        var info := s.depends[fn][0];
        if !FilesOk(u, fn, info, appends) then Removed(s1, fn)
        else if VariantsOk(u, s.depends, fn, info) then s1.(clean := s.clean + Virtuals(fn, info) + {fn})
        else s1.(clean := s.clean - Virtuals(fn, info) - {fn})
  }

  lemma MarkedIs(u: Setup, s: State, t: State, fn: string, appends: seq<string>, valid: bool)
    requires u.hasCache && fn in s.depends && s.depends[fn] != [] && FilesOk(u, fn, s.depends[fn][0], appends)
    requires t.depends == s.depends && t.checked == s.checked + {fn}
    requires valid <==> VariantsOk(u, s.depends, fn, s.depends[fn][0])
    requires forall v :: v in t.clean <==>
      if valid then v in s.clean || v in Virtuals(fn, s.depends[fn][0]) || v == fn
      else v in s.clean && v !in Virtuals(fn, s.depends[fn][0]) && v != fn
    ensures t == Updated(u, s, fn, appends)
  {
    hide FilesOk, VariantsOk, Virtuals;
  }

  class Cache {
    const setup: Setup
    var clean: set<string>
    var checked: set<string>
    var dependsCache: map<string, seq<Info>>

    constructor (setup: Setup, loaded: map<string, seq<Info>>)
      ensures this.setup == setup && Value() == State({}, {}, loaded)
    {
      this.setup := setup;
      clean, checked, dependsCache := {}, {}, loaded;
    }

    ghost function Value(): State
      reads this
    {
      State(clean, checked, dependsCache)
    }

    method Remove(fn: string)
      modifies this
      ensures Value() == Removed(old(Value()), fn)
    {
      if fn in dependsCache {
        dependsCache := dependsCache - {fn};
      }
      if fn in clean {
        clean := clean - {fn};
      }
    }

    method DependsUnchanged(depends: seq<(string, int)>) returns (ok: bool)
      ensures ok <==> forall f :: f in depends ==> DependOk(setup, f)
    {
      for i := 0 to |depends|
        invariant forall f :: f in depends[..i] ==> DependOk(setup, f)
      {
        PrefixGrows(depends, i);
        var (f, oldMtime) := depends[i];
        assert depends[i] in depends && (DependOk(setup, depends[i]) <==> setup.files.mtime(f) == oldMtime);
        var fmtime := setup.files.mtime(f);
        if oldMtime != 0 && fmtime == 0 {
          return false;
        }
        if fmtime != oldMtime {
          return false;
        }
      }
      assert depends[..|depends|] == depends;
      ok := true;
    }

    method ChecksumsUnchanged(entries: seq<(string, string)>) returns (ok: bool)
      ensures ok <==> forall e :: e in entries ==> ChecksumOk(setup, e)
    {
      for i := 0 to |entries|
        invariant forall e :: e in entries[..i] ==> ChecksumOk(setup, e)
      {
        PrefixGrows(entries, i);
        var (f, exist) := entries[i];
        assert entries[i] in entries;
        if (exist == "True" && !setup.files.present(f)) || (exist == "False" && setup.files.present(f)) {
          return false;
        }
      }
      assert entries[..|entries|] == entries;
      ok := true;
    }

    /** The loops over the variants: mark them all clean, or, if one is missing, none. */
    method MarkVariants(fn: string, variants: seq<string>) returns (valid: bool)
      modifies `clean
      ensures valid <==> forall c :: c in variants ==> VariantCached(setup, dependsCache, fn, c)
      ensures forall v :: v in clean <==>
        if valid then v in old(clean) || IsVirtual(fn, variants, v) else v in old(clean) && !IsVirtual(fn, variants, v) && v != fn
    {
      var invalid := false;
      for i := 0 to |variants|
        invariant invalid <==> exists c :: c in variants[..i] && !VariantCached(setup, dependsCache, fn, c)
        invariant forall v :: v in clean <==> v in old(clean) || IsVirtual(fn, variants[..i], v)
      {
        PrefixGrows(variants, i);
        var virtualfn := VariantToVirtual(fn, variants[i]);
        clean := clean + {virtualfn};
        assert variants[i] in variants[..i + 1];
        if virtualfn !in dependsCache {
          invalid := true;
        } else if |dependsCache[virtualfn]| != setup.classes {
          invalid := true;
        }
      }
      assert variants[..|variants|] == variants;
      if invalid {
        for i := 0 to |variants|
          invariant forall v :: v in clean <==>
            (v in old(clean) || IsVirtual(fn, variants, v)) && !IsVirtual(fn, variants[..i], v)
        {
          PrefixGrows(variants, i);
          var virtualfn := VariantToVirtual(fn, variants[i]);
          if virtualfn in clean {
            clean := clean - {virtualfn};
          }
        }
        if fn in clean {
          clean := clean - {fn};
        }
      }
      valid := !invalid;
    }

    method CacheValidUpdate(fn: string, appends: seq<string>) returns (valid: bool)
      requires fn in dependsCache ==> dependsCache[fn] != []
      modifies this
      ensures Value() == Updated(setup, old(Value()), fn, appends)
      ensures valid <==> setup.hasCache && Thorough(setup, old(dependsCache), fn, appends)
    {
      ghost var before := Value();
      if !setup.hasCache {
        return false;
      }
      checked := checked + {fn};
      if fn !in dependsCache {
        return false;
      }
      var mtime := setup.files.mtime(fn);
      if mtime == 0 {
        Remove(fn);
        return false;
      }
      var info := dependsCache[fn][0];
      if mtime != info.timestamp {
        Remove(fn);
        return false;
      }
      if info.fileDepends.Some? {
        var ok := DependsUnchanged(info.fileDepends.value);
        if !ok {
          Remove(fn);
          return false;
        }
      }
      if info.checksums.Some? {
        var ok := ChecksumsUnchanged(info.checksums.value);
        if !ok {
          Remove(fn);
          return false;
        }
      }
      if appends != info.appends {
        Remove(fn);
        return false;
      }
      valid := MarkVariants(fn, info.variants);
      assert forall v :: v in Virtuals(fn, info) <==> IsVirtual(fn, info.variants, v);
      if valid {
        clean := clean + {fn};
      }
      MarkedIs(setup, before, Value(), fn, appends, valid);
    }

    method CacheValid(fn: string, appends: seq<string>) returns (valid: bool)
      requires fn in dependsCache ==> dependsCache[fn] != []
      modifies this
      ensures Value() == Asked(setup, old(Value()), fn, appends)
      ensures valid <==> setup.hasCache && fn in clean
    {
      if fn !in checked {
        var _ := CacheValidUpdate(fn, appends);
      }
      valid := setup.hasCache && fn in clean;
    }

    /** A freshly loaded cache serves these calls one after the other. */
    method Serve(loaded: map<string, seq<Info>>, appendsOf: string -> seq<string>, calls: seq<Call>)
      requires Value() == State({}, {}, loaded) && forall v :: v in loaded ==> loaded[v] != []
      modifies this
      ensures Value() == After(setup, loaded, appendsOf, calls)
    {
      for i := 0 to |calls|
        invariant Value() == After(setup, loaded, appendsOf, calls[..i])
      {
        assert calls[..i + 1][..i] == calls[..i];
        match calls[i] {
          case CacheValid(fn) => var _ := CacheValid(fn, appendsOf(fn));
          case CacheValidUpdate(fn) => var _ := CacheValidUpdate(fn, appendsOf(fn));
          case Remove(fn) => Remove(fn);
        }
      }
      assert calls[..|calls|] == calls;
    }

    /** `load`; the branch that parses is not part of this model. */
    method Load(fn: string, appends: seq<string>, ghost appendsOf: string -> seq<string>)
      returns (infos: Option<seq<(string, seq<Info>)>>)
      requires ':' !in fn && appends == appendsOf(fn) && Inv(setup, Value(), appendsOf)
      modifies this
      ensures Value() == Asked(setup, old(Value()), fn, appends)
      ensures infos.Some? <==> setup.hasCache && Thorough(setup, dependsCache, fn, appends)
      ensures infos.Some? ==> |infos.value| == |dependsCache[fn][0].variants|
      ensures infos.Some? ==> forall i :: 0 <= i < |infos.value| ==>
        var v := VariantToVirtual(fn, dependsCache[fn][0].variants[i]);
        v in dependsCache && infos.value[i] == (v, dependsCache[v]) && |dependsCache[v]| == setup.classes
    {
      hide FilesOk, Updated, Asked, Virtuals, VariantToVirtual;
      AskedIsThorough(setup, Value(), fn, appendsOf);
      var cached := CacheValid(fn, appends);
      if !cached {
        return None;
      }
      var variants := dependsCache[fn][0].variants;
      var list := [];
      for i := 0 to |variants|
        invariant |list| == i
        invariant forall k :: 0 <= k < i ==>
          VariantToVirtual(fn, variants[k]) in dependsCache &&
          list[k] == (VariantToVirtual(fn, variants[k]), dependsCache[VariantToVirtual(fn, variants[k])])
      {
        assert VariantCached(setup, dependsCache, fn, variants[i]);
        var virtualfn := VariantToVirtual(fn, variants[i]);
        list := list + [(virtualfn, dependsCache[virtualfn])];
      }
      forall k | 0 <= k < |variants| ensures VariantCached(setup, dependsCache, fn, variants[k]) { }
      infos := Some(list);
    }
  }

  ghost predicate IsVirtual(fn: string, variants: seq<string>, v: string) {
    exists c :: c in variants && v == VariantToVirtual(fn, c)
  }

  ghost function Asked(u: Setup, s: State, fn: string, appends: seq<string>): State
    requires fn in s.depends ==> s.depends[fn] != []
  {
    if fn in s.checked then s else Updated(u, s, fn, appends)
  }

  // ---- what every sequence of calls keeps ----

  /** For recipe files (names without colons), with the appends fixed by `appendsOf`: clean files pass
      every check, checked files that are not clean do not. */
  ghost predicate Inv(u: Setup, s: State, appendsOf: string -> seq<string>) {
    && s.clean <= s.depends.Keys
    && (forall v :: v in s.depends ==> s.depends[v] != [])
    && forall fn :: ':' !in fn ==>
         && (fn in s.clean ==> u.hasCache && Thorough(u, s.depends, fn, appendsOf(fn)))
         && (fn in s.checked && fn !in s.clean ==> !Thorough(u, s.depends, fn, appendsOf(fn)))
  }

  lemma RemovedKeepsInv(u: Setup, s: State, fn: string, appendsOf: string -> seq<string>)
    requires Inv(u, s, appendsOf) && ':' !in fn
    ensures Inv(u, Removed(s, fn), appendsOf)
  {
  }

  lemma UpdatedKeepsInv(u: Setup, s: State, fn: string, appendsOf: string -> seq<string>)
    requires Inv(u, s, appendsOf) && ':' !in fn
    ensures Inv(u, Updated(u, s, fn, appendsOf(fn)), appendsOf)
  {
  }

  /** A query answers whether every thorough check holds now, even if they ran long ago. */
  lemma AskedIsThorough(u: Setup, s: State, fn: string, appendsOf: string -> seq<string>)
    requires Inv(u, s, appendsOf) && ':' !in fn
    ensures var t := Asked(u, s, fn, appendsOf(fn));
            && Inv(u, t, appendsOf)
            && (u.hasCache && fn in t.clean <==> u.hasCache && Thorough(u, t.depends, fn, appendsOf(fn)))
  {
  }

  datatype Call = CacheValid(fn: string) | CacheValidUpdate(fn: string) | Remove(fn: string)

  /** The state after a sequence of calls on a freshly loaded cache. */
  ghost function After(u: Setup, loaded: map<string, seq<Info>>, appendsOf: string -> seq<string>, calls: seq<Call>): (s: State)
    requires forall v :: v in loaded ==> loaded[v] != []
    ensures forall v :: v in s.depends ==> s.depends[v] != []
  {
    if calls == [] then State({}, {}, loaded)
    else
      var s, call := After(u, loaded, appendsOf, calls[..|calls| - 1]), calls[|calls| - 1];
      match call
      case CacheValid(fn) => Asked(u, s, fn, appendsOf(fn))
      case CacheValidUpdate(fn) => Updated(u, s, fn, appendsOf(fn))
      case Remove(fn) => Removed(s, fn)
  }

  /** After any calls on recipe files, `clean` names only cached entries, and a query is answered
      yes exactly if every thorough check holds and every variant has all its info objects. */
  lemma {:induction false} EveryRunIsSound(u: Setup, loaded: map<string, seq<Info>>, appendsOf: string -> seq<string>, calls: seq<Call>)
    requires forall v :: v in loaded ==> loaded[v] != []
    requires forall c :: c in calls ==> ':' !in c.fn
    ensures Inv(u, After(u, loaded, appendsOf, calls), appendsOf)
  {
    if calls != [] {
      var front, call := calls[..|calls| - 1], calls[|calls| - 1];
      assert calls == front + [call];
      EveryRunIsSound(u, loaded, appendsOf, front);
      var s := After(u, loaded, appendsOf, front);
      UpdatedKeepsInv(u, s, call.fn, appendsOf);
      RemovedKeepsInv(u, s, call.fn, appendsOf);
    }
  }

  lemma QueryAfterAnyRun(u: Setup, loaded: map<string, seq<Info>>, appendsOf: string -> seq<string>, calls: seq<Call>, fn: string)
    requires forall v :: v in loaded ==> loaded[v] != []
    requires forall c :: c in calls ==> ':' !in c.fn
    requires ':' !in fn && u.hasCache
    ensures var t := After(u, loaded, appendsOf, calls + [CacheValid(fn)]);
            && t.clean <= t.depends.Keys
            && (fn in t.clean <==> Thorough(u, t.depends, fn, appendsOf(fn)))
  {
    EveryRunIsSound(u, loaded, appendsOf, calls);
    var s := After(u, loaded, appendsOf, calls);
    AskedIsThorough(u, s, fn, appendsOf);
    assert (calls + [CacheValid(fn)])[..|calls|] == calls;
  }

  /** The restriction to recipe files matters: removing some name keeps a clean recipe's answer true to the
      thorough checks exactly if the name is the recipe itself, which is then not clean, or not the name of
      one of its variants. */
  lemma RemovingAnyNameIff(u: Setup, s: State, name: string, fn: string, appendsOf: string -> seq<string>)
    requires Inv(u, s, appendsOf) && ':' !in fn && fn in s.clean && fn in s.checked
    ensures var t := Removed(s, name);
            (fn in t.clean <==> Thorough(u, t.depends, fn, appendsOf(fn))) <==>
              name == fn || name !in Virtuals(fn, s.depends[fn][0])
  {
  }
}
