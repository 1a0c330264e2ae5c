/** poky/bitbake/lib/bb/cache.py: file names that carry a recipe variant (`virtual:`) and a
    multiconfig (`mc:`). */
module VirtualNames {
  import opened Lists
  import opened TextParts

  const MC := "mc"
  const VIRTUAL := "virtual"

  /** `word:name:rest` */
  function Tagged(word: string, name: string, rest: string): string {
    word + ":" + name + ":" + rest
  }

  /** The name starts with `word:`. */
  predicate HasTag(s: string, word: string) { word + ":" <= s }

  // ---- the three functions ----

  predicate IsMulticonfig(name: string) { HasTag(name, MC) && Count(name, ':') >= 2 }

  /** File and class of a name without its multiconfig. */
  function ClassOf(name: string): (string, string) {
    if HasTag(name, VIRTUAL) then
      var elems := Split(name);
      StartSplits(VIRTUAL, name);
      (elems[|elems| - 1], Join(elems[1..|elems| - 1]))
    else (name, "")
  }

  /** File, class and multiconfig of a virtual file name. */
  function VirtualFnToReal(virtualfn: string): (string, string, string) {
    if IsMulticonfig(virtualfn) then
      var elems := Split(virtualfn);
      var (fn, cls) := ClassOf(Join(elems[2..]));
      (fn, cls, elems[1])
    else
      var (fn, cls) := ClassOf(virtualfn);
      (fn, cls, "")
  }

  function RealFnToVirtual(realfn: string, cls: string, mc: string): string {
    var fn := if cls != "" then Tagged(VIRTUAL, cls, realfn) else realfn;
    if mc != "" then Tagged(MC, mc, fn) else fn
  }

  function VariantToVirtual(realfn: string, variant: string): string {
    if variant == "" then realfn
    else if IsMulticonfig(variant) then
      var elems := Split(variant);
      if elems[2] != "" then Tagged(MC, elems[1], Tagged(VIRTUAL, Join(elems[2..]), realfn))
      else Tagged(MC, elems[1], realfn)
    else Tagged(VIRTUAL, variant, realfn)
  }

  /** What the printed names look like, for every combination of class and multiconfig. */
  lemma NamesSpelled(fn: string, cls: string, mc: string)
    requires cls != "" && mc != ""
    ensures RealFnToVirtual(fn, "", "") == fn && RealFnToVirtual(fn, cls, "") == "virtual:" + cls + ":" + fn
    ensures RealFnToVirtual(fn, "", mc) == "mc:" + mc + ":" + fn
    ensures RealFnToVirtual(fn, cls, mc) == "mc:" + mc + ":" + ("virtual:" + cls + ":" + fn)
  {
    assert VIRTUAL + ":" == "virtual:" && MC + ":" == "mc:";
  }

  lemma StartSplits(word: string, s: string)
    requires ':' !in word && HasTag(s, word)
    ensures s == word + ":" + s[|word| + 1..]
    ensures Split(s) == [word] + Split(s[|word| + 1..])
  {
    assert s == word + ":" + s[|word| + 1..];
    SplitFirst(word, s[|word| + 1..]);
  }

  /** A name starts with a word and a colon exactly if that word is its first of several parts. */
  lemma StartsIff(word: string, s: string)
    requires ':' !in word
    ensures HasTag(s, word) <==> |Split(s)| >= 2 && Split(s)[0] == word
  {
    if HasTag(s, word) {
      StartSplits(word, s);
    }
    var k := Find(s, ':');
    if k < |s| && s[..k] == word {
      assert s[..k + 1] == word + ":";
    }
  }

  /** The parts of a printed name. */
  function NameParts(fn: string, cls: string, mc: string): seq<string> {
    (if mc == "" then [] else [MC] + Split(mc)) + (if cls == "" then [] else [VIRTUAL] + Split(cls)) + Split(fn)
  }

  lemma PrintedParts(fn: string, cls: string, mc: string)
    ensures Split(RealFnToVirtual(fn, cls, mc)) == NameParts(fn, cls, mc)
  {
    ClassParts(fn, cls);
    if mc != "" {
      TaggedParts(MC, mc, RealFnToVirtual(fn, cls, ""));
      MulticonfigParts(fn, cls, mc);
    }
  }

  lemma ClassParts(fn: string, cls: string)
    ensures Split(RealFnToVirtual(fn, cls, "")) == NameParts(fn, cls, "")
  {
    if cls != "" {
      TaggedParts(VIRTUAL, cls, fn);
    } else {
      assert NameParts(fn, cls, "") == Split(fn);
    }
  }

  lemma MulticonfigParts(fn: string, cls: string, mc: string)
    requires mc != ""
    ensures NameParts(fn, cls, mc) == [MC] + Split(mc) + NameParts(fn, cls, "")
  {
  }

  lemma TaggedParts(word: string, name: string, rest: string)
    requires ':' !in word
    ensures Split(Tagged(word, name, rest)) == [word] + Split(name) + Split(rest)
  {
    SepsAssociate(word, name, rest);
    SplitFirst(word, name + ":" + rest);
    SplitTwo(name, rest);
  }

  /** What the parts after a multiconfig read as. */
  function ReadRest(rest: seq<string>): (string, string)
    requires rest != []
  {
    if |rest| >= 2 && rest[0] == VIRTUAL then (rest[|rest| - 1], Join(rest[1..|rest| - 1])) else (Join(rest), "")
  }

  predicate McParts(p: seq<string>) { |p| >= 3 && p[0] == MC }

  /** Reading a name by its parts. */
  function ReadParts(p: seq<string>): (string, string, string)
    requires p != []
  {
    if McParts(p) then (ReadRest(p[2..]).0, ReadRest(p[2..]).1, p[1]) else (ReadRest(p).0, ReadRest(p).1, "")
  }

  lemma ReadByParts(v: string)
    ensures VirtualFnToReal(v) == ReadParts(Split(v))
  {
    StartsIff(MC, v);
    if IsMulticonfig(v) {
      SplitJoin(Split(v)[2..]);
      ReadClassByParts(Join(Split(v)[2..]));
    } else {
      ReadClassByParts(v);
    }
  }

  lemma ReadClassByParts(name: string)
    ensures ClassOf(name) == ReadRest(Split(name))
  {
    JoinSplit(name);
    StartsIff(VIRTUAL, name);
  }

  /** When a printed name can be read back. */
  predicate Readable(fn: string, cls: string, mc: string) {
    && ':' !in mc
    && (if cls != "" then ':' !in fn else !HasTag(fn, VIRTUAL))
    && (mc == "" && cls == "" ==> !IsMulticonfig(fn))
  }

  /** Printing a file, class and multiconfig and reading the name back gives the same three exactly
      under this condition; it puts none on the class. */
  lemma RoundTripIff(fn: string, cls: string, mc: string)
    ensures VirtualFnToReal(RealFnToVirtual(fn, cls, mc)) == (fn, cls, mc) <==> Readable(fn, cls, mc)
  {
    hide Split, RealFnToVirtual, VirtualFnToReal, ReadRest, NameParts, ReadParts, HasTag;
    var v := RealFnToVirtual(fn, cls, mc);
    PrintedParts(fn, cls, mc);
    ReadByParts(v);
    StartsIff(VIRTUAL, fn);
    StartsIff(MC, fn);
    ReadRestIff(fn, cls);
    if mc == "" {
      WithoutMulticonfig(fn, cls);
    } else {
      WithMulticonfig(fn, cls, mc);
    }
  }

  lemma ReadRestIff(fn: string, cls: string)
    ensures ReadRest(NameParts(fn, cls, "")) == (fn, cls) <==>
      if cls != "" then ':' !in fn else !(|Split(fn)| >= 2 && Split(fn)[0] == VIRTUAL)
  {
    if cls != "" {
      ReadRestWithClass(fn, cls);
    } else {
      assert NameParts(fn, cls, "") == Split(fn);
      ReadRestWithoutClass(fn);
    }
  }

  lemma ReadRestWithClass(fn: string, cls: string)
    requires cls != ""
    ensures ReadRest(NameParts(fn, cls, "")) == (fn, cls) <==> ':' !in fn
  {
    var rest := NameParts(fn, cls, "");
    assert rest == [VIRTUAL] + Split(cls) + Split(fn);
    assert rest[|rest| - 1] == Split(fn)[|Split(fn)| - 1];
    if ':' !in fn {
      SplitWhole(fn);
      assert rest[1..|rest| - 1] == Split(cls);
      JoinSplit(cls);
    } else {
      assert Split(fn)[|Split(fn)| - 1] in Split(fn);
    }
  }

  lemma ReadRestWithoutClass(fn: string)
    ensures ReadRest(Split(fn)) == (fn, "") <==> !(|Split(fn)| >= 2 && Split(fn)[0] == VIRTUAL)
  {
    JoinSplit(fn);
    if |Split(fn)| >= 2 && Split(fn)[0] == VIRTUAL {
      ManyPartsHaveColon(fn);
      assert Split(fn)[|Split(fn)| - 1] in Split(fn);
    }
  }

  lemma ManyPartsHaveColon(s: string)
    ensures ':' in s <==> |Split(s)| >= 2
  {
  }

  lemma WithoutMulticonfig(fn: string, cls: string)
    ensures ReadParts(NameParts(fn, cls, "")) == (fn, cls, "") <==>
      && ReadRest(NameParts(fn, cls, "")) == (fn, cls)
      && (cls == "" ==> !McParts(Split(fn)))
  {
    if cls == "" {
      assert NameParts(fn, cls, "") == Split(fn);
      if McParts(Split(fn)) {
        MulticonfigFileShrinks(fn);
      }
    } else {
      assert NameParts(fn, cls, "")[0] == VIRTUAL;
      assert VIRTUAL != MC by { assert VIRTUAL[0] != MC[0]; }
    }
  }

  lemma MulticonfigFileShrinks(fn: string)
    requires McParts(Split(fn))
    ensures ReadParts(Split(fn)).0 != fn
  {
    var p := Split(fn);
    JoinSplit(fn);
    JoinDrops(p);
    ReadRestShort(p[2..]);
    assert ReadParts(p).0 == ReadRest(p[2..]).0;
  }

  /** Dropping leading parts shortens the text. */
  lemma JoinDrops(p: seq<string>)
    requires |p| >= 3
    ensures |Join(p[2..])| < |Join(p)|
  {
  }

  lemma {:induction false} ReadRestShort(rest: seq<string>)
    requires rest != []
    ensures |ReadRest(rest).0| <= |Join(rest)|
  {
    if |rest| >= 2 && rest[0] == VIRTUAL {
      LastPartShort(rest);
    }
  }

  lemma {:induction false} LastPartShort(p: seq<string>)
    requires p != []
    ensures |p[|p| - 1]| <= |Join(p)|
  {
    if |p| > 1 {
      LastPartShort(p[1..]);
    }
  }

  lemma WithMulticonfig(fn: string, cls: string, mc: string)
    requires mc != ""
    ensures ReadParts(NameParts(fn, cls, mc)) == (fn, cls, mc) <==>
      ':' !in mc && ReadRest(NameParts(fn, cls, "")) == (fn, cls)
  {
    var p, rest := NameParts(fn, cls, mc), NameParts(fn, cls, "");
    MulticonfigParts(fn, cls, mc);
    if ':' !in mc {
      SplitWhole(mc);
      assert p == [MC, mc] + rest;
      assert p[2..] == rest;
    } else {
      assert p[1] == Split(mc)[0];
      assert Split(mc)[0] in Split(mc);
    }
  }

  /** Recipe files and multiconfigs have no colons; then the round trip always holds. */
  lemma RoundTrip(fn: string, cls: string, mc: string)
    requires ':' !in fn && ':' !in mc
    ensures VirtualFnToReal(RealFnToVirtual(fn, cls, mc)) == (fn, cls, mc)
  {
    RoundTripIff(fn, cls, mc);
    SplitWhole(fn);
    StartsIff(VIRTUAL, fn);
    StartsIff(MC, fn);
  }

  // ---- variants ----

  /** A multiconfig variant without a class: `mc:M:`, and oddly also `mc:M::x`. */
  predicate IsBareMulticonfig(variant: string) {
    IsMulticonfig(variant) && Split(variant)[2] == ""
  }

  /** What a variant puts in front of the file's parts. */
  function VariantParts(variant: string): seq<string> {
    var p := Split(variant);
    if variant == "" then []
    else if IsBareMulticonfig(variant) then [MC, p[1]]
    else if IsMulticonfig(variant) then [MC, p[1], VIRTUAL] + p[2..]
    else [VIRTUAL] + p
  }

  lemma VariantPrintedParts(fn: string, variant: string)
    ensures Split(VariantToVirtual(fn, variant)) == VariantParts(variant) + Split(fn)
  {
    if variant == "" {
      assert [] + Split(fn) == Split(fn);
    } else if IsMulticonfig(variant) {
      MulticonfigPrintedParts(fn, variant);
    } else {
      TaggedParts(VIRTUAL, variant, fn);
    }
  }

  lemma MulticonfigPrintedParts(fn: string, variant: string)
    requires IsMulticonfig(variant)
    ensures Split(VariantToVirtual(fn, variant)) == VariantParts(variant) + Split(fn)
  {
    var p := Split(variant);
    assert p[1] in p;
    if p[2] != "" {
      SplitJoin(p[2..]);
      MulticonfigPrefix(p[1], Join(p[2..]), fn);
    } else {
      TaggedParts(MC, p[1], fn);
      SplitWhole(p[1]);
      assert [MC] + [p[1]] == [MC, p[1]];
    }
  }

  lemma MulticonfigPrefix(mc: string, rest: string, fn: string)
    requires ':' !in mc
    ensures Split(Tagged(MC, mc, Tagged(VIRTUAL, rest, fn))) == [MC, mc, VIRTUAL] + Split(rest) + Split(fn)
  {
    TaggedParts(MC, mc, Tagged(VIRTUAL, rest, fn));
    TaggedParts(VIRTUAL, rest, fn);
    SplitWhole(mc);
    OneList(MC, mc, VIRTUAL, Split(rest), Split(fn));
  }

  lemma OneList<T>(a: T, b: T, c: T, s: seq<T>, t: seq<T>)
    ensures [a] + [b] + ([c] + s + t) == [a, b, c] + s + t
  {
  }

  /** Names of different recipe files never meet, whatever the variants. */
  lemma DifferentFilesDiffer(fn1: string, v1: string, fn2: string, v2: string)
    requires ':' !in fn1 && ':' !in fn2
    requires VariantToVirtual(fn1, v1) == VariantToVirtual(fn2, v2)
    ensures fn1 == fn2
  {
    VariantPrintedParts(fn1, v1);
    VariantPrintedParts(fn2, v2);
    SplitWhole(fn1);
    SplitWhole(fn2);
    var p := Split(VariantToVirtual(fn1, v1));
    assert p[|p| - 1] == fn1 && p[|p| - 1] == fn2;
  }

  /** A variant name is the file's own name only for the empty variant. */
  lemma OnlyEmptyVariantIsFile(fn: string, variant: string)
    ensures VariantToVirtual(fn, variant) == fn <==> variant == ""
  {
  }

  /** Two variants of one file get the same name exactly if they are the same, or are both bare
      variants of one multiconfig. */
  lemma VariantsInjectiveIff(fn: string, a: string, b: string)
    ensures VariantToVirtual(fn, a) == VariantToVirtual(fn, b) <==>
      a == b || (IsBareMulticonfig(a) && IsBareMulticonfig(b) && Split(a)[1] == Split(b)[1])
  {
    VariantPrintedParts(fn, a);
    VariantPrintedParts(fn, b);
    SplitInjective(VariantToVirtual(fn, a), VariantToVirtual(fn, b));
    SameTailSamePrefix(VariantParts(a), VariantParts(b), Split(fn));
    SplitInjective(a, b);
    SameVariantParts(a, b);
  }

  /** Two variants of every file with one name, for any multiconfig and any class. */
  lemma BareVariantsMeet(fn: string, mc: string, cls: string)
    requires ':' !in mc && cls != ""
    ensures var a, b := Tagged(MC, mc, ""), Tagged(MC, mc, ":" + cls);
            a != b && VariantToVirtual(fn, a) == VariantToVirtual(fn, b)
  {
    var a, b := Tagged(MC, mc, ""), Tagged(MC, mc, ":" + cls);
    MulticonfigKey(mc, "");
    MulticonfigKey(mc, ":" + cls);
    SplitWhole("");
    SplitFirst("", cls);
    assert ":" + cls == "" + [':'] + cls;
    assert |a| < |b|;
    VariantsInjectiveIff(fn, a, b);
  }

  lemma SameTailSamePrefix<T>(a: seq<T>, b: seq<T>, tail: seq<T>)
    ensures a + tail == b + tail <==> a == b
  {
    if a + tail == b + tail {
      assert a == (a + tail)[..|a|] && b == (b + tail)[..|b|];
    }
  }

  lemma SameVariantParts(a: string, b: string)
    ensures VariantParts(a) == VariantParts(b) <==>
      Split(a) == Split(b) || (IsBareMulticonfig(a) && IsBareMulticonfig(b) && Split(a)[1] == Split(b)[1])
  {
    SplitInjective(a, b);
    var p, q := Split(a), Split(b);
    StartsIff(MC, a);
    StartsIff(MC, b);
    if VariantParts(a) == VariantParts(b) && a != "" && b != "" {
      if IsMulticonfig(a) && !IsBareMulticonfig(a) {
        assert VariantParts(a)[3..] == p[2..] && VariantParts(b)[3..] == q[2..];
        assert p == [p[0], p[1]] + p[2..] && q == [q[0], q[1]] + q[2..];
      } else if !IsMulticonfig(a) {
        assert VariantParts(a)[1..] == p && VariantParts(b)[1..] == q;
      }
    }
  }

  /** The keys that loading a recipe makes for a multiconfig print as the file, class and
      multiconfig they stand for, exactly if the class does not start with a colon. */
  lemma MulticonfigVariantAgrees(fn: string, cls: string, mc: string)
    requires mc != "" && ':' !in mc
    ensures VariantToVirtual(fn, Tagged(MC, mc, cls)) == RealFnToVirtual(fn, cls, mc) <==>
      cls == "" || cls[0] != ':'
  {
    var v := Tagged(MC, mc, cls);
    MulticonfigKey(mc, cls);
    VariantPrintedParts(fn, v);
    PrintedParts(fn, cls, mc);
    SplitInjective(VariantToVirtual(fn, v), RealFnToVirtual(fn, cls, mc));
    KeyNameParts(fn, cls, mc);
    KeyVariantParts(mc, cls);
    SameTailSamePrefix(VariantParts(v), ClassKey(mc, cls), Split(fn));
  }

  lemma MulticonfigKey(mc: string, cls: string)
    requires ':' !in mc
    ensures IsMulticonfig(Tagged(MC, mc, cls)) && Split(Tagged(MC, mc, cls)) == [MC, mc] + Split(cls)
  {
    TaggedParts(MC, mc, cls);
    SplitWhole(mc);
    StartsIff(MC, Tagged(MC, mc, cls));
  }

  function ClassKey(mc: string, cls: string): seq<string> {
    [MC, mc] + if cls == "" then [] else [VIRTUAL] + Split(cls)
  }

  lemma KeyNameParts(fn: string, cls: string, mc: string)
    requires mc != "" && ':' !in mc
    ensures NameParts(fn, cls, mc) == ClassKey(mc, cls) + Split(fn)
  {
  }

  lemma KeyVariantParts(mc: string, cls: string)
    requires mc != "" && ':' !in mc
    ensures VariantParts(Tagged(MC, mc, cls)) == ClassKey(mc, cls) <==> cls == "" || cls[0] != ':'
  {
    var v := Tagged(MC, mc, cls);
    MulticonfigKey(mc, cls);
    ListTail(MC, mc, Split(cls));
    if cls == "" {
      SplitWhole("");
    } else if cls[0] == ':' {
      assert IsBareMulticonfig(v);
    } else {
      assert !IsBareMulticonfig(v);
      assert [MC, mc, VIRTUAL] + Split(cls) == [MC, mc] + ([VIRTUAL] + Split(cls));
    }
  }

  lemma ListTail<T>(a: T, b: T, s: seq<T>)
    ensures ([a, b] + s)[1] == b && ([a, b] + s)[2..] == s && (s != [] ==> ([a, b] + s)[2] == s[0])
  {
  }

  lemma PlainVariantAgrees(fn: string, variant: string)
    requires !IsMulticonfig(variant)
    ensures VariantToVirtual(fn, variant) == RealFnToVirtual(fn, variant, "")
  {
  }
}
