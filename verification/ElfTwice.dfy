/** Relocating a file whose parts lie apart from each other, a second time: nothing changes. */
module ElfTwice {
  import opened Bytes
  import opened ElfFile
  import opened ElfLayout
  import opened Relocation
  import opened Wrappers

  datatype Area = Area(off: nat, size: nat) {
    predicate Has(p: nat) { off <= p < off + size }
    predicate Apart(other: Area) { forall p :: off <= p < off + size ==> !other.Has(p) }
  }

  /** The tables of a file, as they are read from it. */
  datatype Tables = Tables(h: Header, strings: Section, tab: seq<Byte>)

  predicate Reads(d: seq<Byte>, t: Tables) {
    && |d| >= 64 && ParseElfHeader(Read(d, 0, 64)) == Some(t.h)
    && SectionAt(d, t.h, t.h.shstrndx) == Some(t.strings)
    && Read(d, t.strings.offset, t.strings.size) == t.tab
  }

  const PATCHED_NAMES := {SYSDIRS, SYSDIRSLEN, LDSOCACHE, GCCRELOCPREFIX}

  /** The area that the loop over the sections may write to at section `i`; the last one is the
      interpreter's, with all that is read of it. */
  function PatchArea(d: seq<Byte>, t: Tables, i: nat): Area {
    if i == t.h.shnum then
      match FindInterp(d, t.h, 0)
      case (_, None) => Area(0, 0)
      case (_, Some(seg)) => Area(seg.offset, if seg.filesz < 11 then 11 else seg.filesz)
    else
      match SectionAt(d, t.h, i)
      case None => Area(0, 0)
      case Some(sect) =>
        if sect.kind == SHT_PROGBITS && NameAt(t.tab, sect.name) in PATCHED_NAMES then Area(sect.offset, sect.size)
        else Area(0, 0)
  }

  ghost predicate InPatch(d: seq<Byte>, t: Tables, p: nat) {
    exists i: nat :: i <= t.h.shnum && PatchArea(d, t, i).Has(p)
  }

  /** `e` is `d` outside the patch areas. */
  ghost predicate Kept(d: seq<Byte>, t: Tables, e: seq<Byte>) {
    |e| == |d| && forall p :: 0 <= p < |d| && !InPatch(d, t, p) ==> e[p] == d[p]
  }

  /** Nothing that is read as a header or a name is in a patch area. */
  ghost predicate HeadersApart(d: seq<Byte>, t: Tables) {
    && (forall p: nat :: p < 64 ==> !InPatch(d, t, p))
    && (forall i: nat, p: nat :: i < t.h.phnum && Area(Row(t.h.phoff, i, t.h.phentsize), t.h.phentsize).Has(p) ==>
          !InPatch(d, t, p))
    && (forall i: nat, p: nat :: i < t.h.shnum || i == t.h.shstrndx ==>
          Area(Row(t.h.shoff, i, t.h.shentsize), t.h.shentsize).Has(p) ==> !InPatch(d, t, p))
    && forall p: nat :: Area(t.strings.offset, t.strings.size).Has(p) ==> !InPatch(d, t, p)
  }

  lemma KeptRead(d: seq<Byte>, t: Tables, e: seq<Byte>, off: nat, n: nat)
    requires Kept(d, t, e) && forall p: nat :: Area(off, n).Has(p) ==> !InPatch(d, t, p)
    ensures Read(e, off, n) == Read(d, off, n)
  {
  }

  /** The same tables are read from `e`. */
  lemma KeptTables(d: seq<Byte>, t: Tables, e: seq<Byte>)
    requires Reads(d, t) && HeadersApart(d, t) && Kept(d, t, e)
    ensures Reads(e, t) && forall i: nat :: i < t.h.shnum ==> SectionAt(e, t.h, i) == SectionAt(d, t.h, i)
    ensures FindInterp(e, t.h, 0) == FindInterp(d, t.h, 0)
  {
    hide InPatch, Read, Row, ParseElfHeader, UnpackSection, UnpackSegment;
    KeptRead(d, t, e, 0, 64);
    KeptRead(d, t, e, t.strings.offset, t.strings.size);
    forall i: nat | i < t.h.shnum || i == t.h.shstrndx ensures SectionAt(e, t.h, i) == SectionAt(d, t.h, i) {
      KeptRead(d, t, e, Row(t.h.shoff, i, t.h.shentsize), t.h.shentsize);
    }
    KeptInterp(d, t, e, 0);
  }

  lemma {:induction false} KeptInterp(d: seq<Byte>, t: Tables, e: seq<Byte>, i: nat)
    requires HeadersApart(d, t) && Kept(d, t, e) && i <= t.h.phnum
    ensures FindInterp(e, t.h, i) == FindInterp(d, t.h, i)
    decreases t.h.phnum - i
  {
    if i < t.h.phnum {
      KeptInterp(d, t, e, i + 1);
      hide InPatch, Read, Row, UnpackSegment;
      KeptRead(d, t, e, Row(t.h.phoff, i, t.h.phentsize), t.h.phentsize);
    }
  }

  // ---- areas ----

  ghost predicate Same(d: seq<Byte>, e: seq<Byte>, a: Area) {
    |e| == |d| && a.off + a.size <= |d| && e[a.off..a.off + a.size] == d[a.off..a.off + a.size]
  }

  lemma ChangesElsewhere(d: seq<Byte>, e: seq<Byte>, a: Area, b: Area)
    requires Changes(d, e, a.off, a.size) && a.Apart(b) && b.off + b.size <= |d|
    ensures Same(d, e, b)
  {
    forall p | b.off <= p < b.off + b.size ensures e[p] == d[p] { assert b.Has(p); }
  }

  lemma SameThrice(d: seq<Byte>, e: seq<Byte>, f: seq<Byte>, a: Area)
    requires Same(d, e, a) && Same(e, f, a)
    ensures Same(d, f, a)
  {
  }

  lemma SliceOfSlice(d: seq<Byte>, lo: nat, hi: nat, off: nat, size: nat)
    requires lo <= off && off + size <= hi <= |d|
    ensures d[lo..hi][off - lo..off - lo + size] == d[off..off + size]
  {
    var x := d[lo..hi][off - lo..off - lo + size];
    assert |x| == size && forall i :: 0 <= i < size ==> x[i] == d[off + i];
  }

  lemma SettledInSame(prefix: seq<Byte>, d: seq<Byte>, e: seq<Byte>, a: Area, off: nat, size: nat)
    requires Same(d, e, a) && a.off <= off && off + size <= a.off + a.size && Settled(prefix, d, off, size)
    ensures Settled(prefix, e, off, size)
  {
    hide Patched;
    SliceOfSlice(d, a.off, a.off + a.size, off, size);
    SliceOfSlice(e, a.off, a.off + a.size, off, size);
  }

  lemma ReadSame(d: seq<Byte>, e: seq<Byte>, a: Area)
    requires Same(d, e, a)
    ensures Read(e, a.off, a.size) == Read(d, a.off, a.size)
  {
  }

  // ---- the sections ----

  predicate Named(d: seq<Byte>, t: Tables, i: nat, name: seq<Byte>) {
    && i < t.h.shnum && SectionAt(d, t.h, i).Some? && SectionAt(d, t.h, i).value.kind == SHT_PROGBITS
    && NameAt(t.tab, SectionAt(d, t.h, i).value.name) == name
  }

  /** The last section of this name, of the first `n`. */
  function LastNamed(d: seq<Byte>, t: Tables, name: seq<Byte>, n: nat): Option<Area>
    requires n <= t.h.shnum
  {
    if n == 0 then None
    else if Named(d, t, n - 1, name) then Some(PatchArea(d, t, n - 1))
    else LastNamed(d, t, name, n - 1)
  }

  function NewDirs(d: seq<Byte>, prefix: seq<Byte>, a: Area): seq<seq<Byte>> {
    SubAll(prefix, Paths(Read(d, a.off, a.size)))
  }

  function Width(t: Tables): nat { if t.h.wide then 8 else 4 }

  /** The patch areas are in the file and apart, and what is written to the library directories fits. */
  ghost predicate WellLaid(d: seq<Byte>, t: Tables, prefix: seq<Byte>) {
    && Reads(d, t) && HeadersApart(d, t)
    && (forall i: nat :: i <= t.h.shnum ==> PatchArea(d, t, i).off + PatchArea(d, t, i).size <= |d|)
    && (forall i: nat, j: nat :: i <= t.h.shnum && j <= t.h.shnum && i != j ==>
          PatchArea(d, t, i).Apart(PatchArea(d, t, j)))
    && (forall i: nat :: Named(d, t, i, SYSDIRS) ==>
          |Strings(NewDirs(d, prefix, PatchArea(d, t, i)))| <= PatchArea(d, t, i).size)
    && (forall i: nat, j: nat :: Named(d, t, i, SYSDIRS) && Named(d, t, j, SYSDIRSLEN) ==>
          |Lengths(NewDirs(d, prefix, PatchArea(d, t, i)), Width(t))| <= PatchArea(d, t, j).size)
  }

  ghost predicate SectionSettled(d: seq<Byte>, t: Tables, prefix: seq<Byte>, e: seq<Byte>, i: nat) {
    var a := PatchArea(d, t, i);
    && (Named(d, t, i, LDSOCACHE) ==> Settled(prefix, e, a.off, a.size))
    && (Named(d, t, i, GCCRELOCPREFIX) ==>
          a.off + a.size <= |e| && forall k: nat :: Full(a.size, k) ==> Settled(prefix, e, SlotAt(a.off, k), SLOT))
  }

  lemma SectionStaysSettled(d: seq<Byte>, t: Tables, prefix: seq<Byte>, e: seq<Byte>, f: seq<Byte>, i: nat)
    requires SectionSettled(d, t, prefix, e, i) && Same(e, f, PatchArea(d, t, i))
    ensures SectionSettled(d, t, prefix, f, i)
  {
    var a := PatchArea(d, t, i);
    hide Settled, Same;
    if Named(d, t, i, LDSOCACHE) { SettledInSame(prefix, e, f, a, a.off, a.size); }
    if Named(d, t, i, GCCRELOCPREFIX) {
      forall k: nat | Full(a.size, k) ensures Settled(prefix, f, SlotAt(a.off, k), SLOT) {
        SettledInSame(prefix, e, f, a, SlotAt(a.off, k), SLOT);
      }
      SameInside(e, f, a);
    }
  }

  lemma SameInside(e: seq<Byte>, f: seq<Byte>, a: Area)
    requires Same(e, f, a)
    ensures a.off + a.size <= |f|
  {
  }

  /** What a step does to the data: only the section's own area changes, and it is settled. */
  lemma StepSettles(d: seq<Byte>, t: Tables, prefix: seq<Byte>, s: Scan, i: nat)
    requires i < t.h.shnum && Plain(prefix) && SectionAt(s.data, t.h, i) == SectionAt(d, t.h, i)
    requires |s.data| == |d| && PatchArea(d, t, i).off + PatchArea(d, t, i).size <= |d| && s.status.Good?
    ensures var r := SectionStep(s, t.h, t.tab, prefix, i);
            && Changes(s.data, r.data, PatchArea(d, t, i).off, PatchArea(d, t, i).size)
            && (r.status.Good? ==> SectionSettled(d, t, prefix, r.data, i))
            && (Named(d, t, i, SYSDIRS) || Named(d, t, i, SYSDIRSLEN) ==> r.data == s.data)
  {
    hide PatchPart, PatchSlots, Plain, NameAt, Settled, Full, SlotAt, Patched;
    if SectionAt(d, t.h, i).Some? {
      var sect := SectionAt(d, t.h, i).value;
      if Named(d, t, i, LDSOCACHE) { PartIsPatched(s.data, prefix, sect.offset, sect.size); }
      if Named(d, t, i, GCCRELOCPREFIX) {
        SlotsArePatched(s.data, prefix, sect.offset, sect.size);
        if PatchSlots(s.data, prefix, sect.offset, sect.size).status.Good? {
          SlotsTwice(s.data, prefix, sect.offset, sect.size);
        }
      }
    }
  }

  // ---- the first scan ----

  function DirsAt(d: seq<Byte>, last: Option<Area>): Option<Sysdirs> {
    match last
    case None => None
    case Some(a) => Some(Sysdirs(Read(d, a.off, a.size), a.off, a.size))
  }

  function OffsetAt(last: Option<Area>): Option<nat> {
    match last
    case None => None
    case Some(a) => Some(a.off)
  }

  /** The loop has come to section `n`, from data `d1` that has the tables of `d`. */
  ghost predicate Scanned(d: seq<Byte>, t: Tables, prefix: seq<Byte>, d1: seq<Byte>, s: Scan, n: nat)
    requires n <= t.h.shnum
  {
    && Kept(d, t, s.data)
    && (forall i: nat :: i < n ==> SectionSettled(d, t, prefix, s.data, i))
    && (forall i: nat :: n <= i <= t.h.shnum || Named(d, t, i, SYSDIRS) || Named(d, t, i, SYSDIRSLEN) ==>
          Same(d1, s.data, PatchArea(d, t, i)))
    && s.sysdirs == DirsAt(d1, LastNamed(d, t, SYSDIRS, n))
    && s.sysdirslen == OffsetAt(LastNamed(d, t, SYSDIRSLEN, n))
  }

  lemma KeptThen(d: seq<Byte>, t: Tables, e: seq<Byte>, f: seq<Byte>, i: nat)
    requires Kept(d, t, e) && i <= t.h.shnum && Changes(e, f, PatchArea(d, t, i).off, PatchArea(d, t, i).size)
    ensures Kept(d, t, f)
  {
  }

  lemma AreasApart(d: seq<Byte>, t: Tables, prefix: seq<Byte>, e: seq<Byte>, f: seq<Byte>, i: nat, j: nat)
    requires WellLaid(d, t, prefix) && i <= t.h.shnum && j <= t.h.shnum && i != j && |e| == |d|
    requires Changes(e, f, PatchArea(d, t, i).off, PatchArea(d, t, i).size)
    ensures Same(e, f, PatchArea(d, t, j))
  {
    ChangesElsewhere(e, f, PatchArea(d, t, i), PatchArea(d, t, j));
  }

  lemma ScanStep(d: seq<Byte>, t: Tables, prefix: seq<Byte>, d1: seq<Byte>, s: Scan, n: nat)
    requires WellLaid(d, t, prefix) && Plain(prefix) && n < t.h.shnum && s.status.Good?
    requires Scanned(d, t, prefix, d1, s, n) && |d1| == |d|
    ensures var r := SectionStep(s, t.h, t.tab, prefix, n);
            r.status.Good? ==> Scanned(d, t, prefix, d1, r, n + 1)
  {
    KeptTables(d, t, s.data);
    StepSettles(d, t, prefix, s, n);
    var r := SectionStep(s, t.h, t.tab, prefix, n);
    if r.status.Good? {
      KeptThen(d, t, s.data, r.data, n);
      StepNotes(d, t, prefix, d1, s, n);
      hide SectionStep, PatchArea, Kept, Named, Plain, Changes, WellLaid, Same, SectionSettled;
      OtherSectionsSettled(d, t, prefix, s.data, r.data, n);
      OtherAreasSame(d, t, prefix, d1, s.data, r.data, n);
    }
  }

  lemma OtherSectionsSettled(d: seq<Byte>, t: Tables, prefix: seq<Byte>, e: seq<Byte>, f: seq<Byte>, n: nat)
    requires WellLaid(d, t, prefix) && n < t.h.shnum && |e| == |d|
    requires Changes(e, f, PatchArea(d, t, n).off, PatchArea(d, t, n).size)
    requires forall i: nat :: i < n ==> SectionSettled(d, t, prefix, e, i)
    requires SectionSettled(d, t, prefix, f, n)
    ensures forall i: nat :: i < n + 1 ==> SectionSettled(d, t, prefix, f, i)
  {
    hide WellLaid, PatchArea, Changes, SectionSettled, Same;
    forall i: nat | i < n ensures SectionSettled(d, t, prefix, f, i) {
      AreasApart(d, t, prefix, e, f, n, i);
      SectionStaysSettled(d, t, prefix, e, f, i);
    }
  }

  lemma OtherAreasSame(d: seq<Byte>, t: Tables, prefix: seq<Byte>, d1: seq<Byte>, e: seq<Byte>, f: seq<Byte>, n: nat)
    requires WellLaid(d, t, prefix) && n < t.h.shnum && |e| == |d|
    requires Changes(e, f, PatchArea(d, t, n).off, PatchArea(d, t, n).size)
    requires Named(d, t, n, SYSDIRS) || Named(d, t, n, SYSDIRSLEN) ==> e == f
    requires forall i: nat :: n <= i <= t.h.shnum || Named(d, t, i, SYSDIRS) || Named(d, t, i, SYSDIRSLEN) ==>
      Same(d1, e, PatchArea(d, t, i))
    ensures forall i: nat :: n + 1 <= i <= t.h.shnum || Named(d, t, i, SYSDIRS) || Named(d, t, i, SYSDIRSLEN) ==>
      Same(d1, f, PatchArea(d, t, i))
  {
    hide WellLaid, PatchArea, Changes, Same, Named;
    forall i: nat | n + 1 <= i <= t.h.shnum || Named(d, t, i, SYSDIRS) || Named(d, t, i, SYSDIRSLEN)
      ensures Same(d1, f, PatchArea(d, t, i))
    {
      if i != n {
        NamedBelow(d, t, i);
        AreasApart(d, t, prefix, e, f, n, i);
        SameThrice(d1, e, f, PatchArea(d, t, i));
      }
    }
  }

  lemma NamedBelow(d: seq<Byte>, t: Tables, i: nat)
    ensures Named(d, t, i, SYSDIRS) || Named(d, t, i, SYSDIRSLEN) ==> i < t.h.shnum
  {
  }

  /** What a step notes about the library directories. */
  lemma StepNotes(d: seq<Byte>, t: Tables, prefix: seq<Byte>, d1: seq<Byte>, s: Scan, n: nat)
    requires n < t.h.shnum && SectionAt(s.data, t.h, n) == SectionAt(d, t.h, n)
    requires s.sysdirs == DirsAt(d1, LastNamed(d, t, SYSDIRS, n)) && Same(d1, s.data, PatchArea(d, t, n))
    requires s.sysdirslen == OffsetAt(LastNamed(d, t, SYSDIRSLEN, n))
    ensures var r := SectionStep(s, t.h, t.tab, prefix, n);
            && (r.status.Good? ==> r.sysdirs == DirsAt(d1, LastNamed(d, t, SYSDIRS, n + 1)))
            && (r.status.Good? ==> r.sysdirslen == OffsetAt(LastNamed(d, t, SYSDIRSLEN, n + 1)))
  {
    hide PatchPart, PatchSlots, NameAt, Same, Read;
    ReadSame(d1, s.data, PatchArea(d, t, n));
  }

  lemma NextScan(e: seq<Byte>, t: Tables, prefix: seq<Byte>, n: nat)
    ensures var s := ScanTo(e, t.h, t.tab, prefix, n);
            ScanTo(e, t.h, t.tab, prefix, n + 1) == if s.status.Good? then SectionStep(s, t.h, t.tab, prefix, n) else s
  {
  }

  lemma AreasSame(d: seq<Byte>, t: Tables, prefix: seq<Byte>, e: seq<Byte>)
    requires WellLaid(d, t, prefix) && |e| == |d|
    ensures forall i: nat :: i <= t.h.shnum ==> Same(e, e, PatchArea(d, t, i))
  {
  }

  /** The same tables are read from any file that differs in the patch areas only. */
  lemma LaidTables(d: seq<Byte>, t: Tables, prefix: seq<Byte>, e: seq<Byte>)
    requires WellLaid(d, t, prefix) && Kept(d, t, e)
    ensures Reads(e, t) && forall i: nat :: i < t.h.shnum ==> SectionAt(e, t.h, i) == SectionAt(d, t.h, i)
    ensures FindInterp(e, t.h, 0) == FindInterp(d, t.h, 0) && |e| == |d|
  {
    KeptTables(d, t, e);
  }

  lemma ScanStarts(d: seq<Byte>, t: Tables, prefix: seq<Byte>, d1: seq<Byte>)
    requires WellLaid(d, t, prefix) && Kept(d, t, d1)
    ensures ScanTo(d1, t.h, t.tab, prefix, 0) == Scan(d1, None, None, Good)
    ensures Scanned(d, t, prefix, d1, ScanTo(d1, t.h, t.tab, prefix, 0), 0)
  {
    AreasSame(d, t, prefix, d1);
    hide WellLaid, Same, PatchArea;
    assert forall i: nat :: Named(d, t, i, SYSDIRS) || Named(d, t, i, SYSDIRSLEN) ==> i < t.h.shnum;
  }

  lemma {:induction false} FirstScan(d: seq<Byte>, t: Tables, prefix: seq<Byte>, d1: seq<Byte>, n: nat)
    requires WellLaid(d, t, prefix) && Plain(prefix) && Kept(d, t, d1) && n <= t.h.shnum
    requires ScanTo(d1, t.h, t.tab, prefix, n).status.Good?
    ensures Scanned(d, t, prefix, d1, ScanTo(d1, t.h, t.tab, prefix, n), n)
  {
    hide WellLaid, Scanned, SectionStep, ScanTo, Kept, Plain;
    if n == 0 {
      ScanStarts(d, t, prefix, d1);
    } else {
      LaidTables(d, t, prefix, d1);
      NextScan(d1, t, prefix, n - 1);
      FirstScan(d, t, prefix, d1, n - 1);
      ScanStep(d, t, prefix, d1, ScanTo(d1, t.h, t.tab, prefix, n - 1), n - 1);
    }
  }

  // ---- the second scan ----

  lemma SettledSectionStays(d: seq<Byte>, t: Tables, prefix: seq<Byte>, s: Scan, i: nat)
    requires i < t.h.shnum && SectionAt(s.data, t.h, i) == SectionAt(d, t.h, i) && SectionAt(d, t.h, i).Some?
    requires s.status.Good? && SectionSettled(d, t, prefix, s.data, i)
    ensures var r := SectionStep(s, t.h, t.tab, prefix, i); r.data == s.data && r.status.Good?
  {
    hide PatchPart, PatchSlots, NameAt, Settled, Full, SlotAt;
    var sect := SectionAt(d, t.h, i).value;
    if Named(d, t, i, LDSOCACHE) { SettledStays(prefix, s.data, sect.offset, sect.size); }
    if Named(d, t, i, GCCRELOCPREFIX) { SettledSlotsStay(prefix, s.data, sect.offset, sect.size); }
  }

  lemma {:induction false} SecondScan(d: seq<Byte>, t: Tables, prefix: seq<Byte>, e: seq<Byte>, n: nat)
    requires WellLaid(d, t, prefix) && Kept(d, t, e) && n <= t.h.shnum
    requires forall i: nat :: i < n ==> SectionAt(d, t.h, i).Some? && SectionSettled(d, t, prefix, e, i)
    ensures ScanTo(e, t.h, t.tab, prefix, n) ==
      Scan(e, DirsAt(e, LastNamed(d, t, SYSDIRS, n)), OffsetAt(LastNamed(d, t, SYSDIRSLEN, n)), Good)
  {
    hide WellLaid, SectionStep, ScanTo, Kept, PatchArea, SectionSettled, Reads, SectionAt, FindInterp, Same;
    if n == 0 {
      ScanStarts(d, t, prefix, e);
    } else {
      LaidTables(d, t, prefix, e);
      AreasSame(d, t, prefix, e);
      SecondScan(d, t, prefix, e, n - 1);
      NextScan(e, t, prefix, n - 1);
      var s := ScanTo(e, t.h, t.tab, prefix, n - 1);
      SettledSectionStays(d, t, prefix, s, n - 1);
      StepNotes(d, t, prefix, e, s, n - 1);
    }
  }

  // ---- the interpreter ----

  lemma HostsInSame(d: seq<Byte>, e: seq<Byte>, a: Area)
    requires Same(d, e, a) && a.size >= 11
    ensures IsHosts(e, a.off) == IsHosts(d, a.off)
  {
    assert Read(d, a.off, 11) == d[a.off..a.off + a.size][..11];
    assert Read(e, a.off, 11) == e[a.off..a.off + a.size][..11];
  }

  /** The interpreter's step changes its own area only; where that area is kept, a second one changes nothing. */
  lemma InterpTwice(d: seq<Byte>, seg: Segment, dlPath: seq<Byte>, e: seq<Byte>, size: nat)
    requires size >= 11 && size >= seg.filesz && seg.offset + size <= |d|
    requires Same(PatchInterp(d, seg, dlPath).data, e, Area(seg.offset, size))
    ensures Changes(d, PatchInterp(d, seg, dlPath).data, seg.offset, size)
    ensures PatchInterp(e, seg, dlPath) == Change(e, PatchInterp(d, seg, dlPath).status)
  {
    var a := Area(seg.offset, size);
    var c := PatchInterp(d, seg, dlPath).data;
    HostsInSame(c, e, a);
    hide IsHosts, Zeros, Read, Write;
    if !IsHosts(d, seg.offset) && |dlPath| < seg.filesz {
      PathTwice(d, seg.offset, dlPath + Zeros(seg.filesz - |dlPath|), e, size);
    }
  }

  lemma PathTwice(d: seq<Byte>, off: nat, b: seq<Byte>, e: seq<Byte>, size: nat)
    requires |b| <= size && off + size <= |d| && Same(Write(d, off, b), e, Area(off, size))
    ensures Changes(d, Write(d, off, b), off, size) && Write(e, off, b) == e
  {
    WriteInside(d, off, b);
    var c := Write(d, off, b);
    hide Write;
    SliceOfSlice(c, off, off + size, off, |b|);
    SliceOfSlice(e, off, off + size, off, |b|);
    WriteSame(e, off, b);
  }

  // ---- the library directories ----

  lemma WriteSame(e: seq<Byte>, off: nat, b: seq<Byte>)
    requires off + |b| <= |e| && e[off..off + |b|] == b
    ensures Write(e, off, b) == e
  {
  }

  /** The two sections are written inside their areas, and writing what they then say changes nothing. */
  lemma DirsTwice(x: seq<Byte>, t: Tables, prefix: seq<Byte>, text: seq<Byte>, a: Area, b: Area)
    requires Plain(prefix) && a.Apart(b) && a.off + a.size <= |x| && b.off + b.size <= |x|
    requires |Strings(SubAll(prefix, Paths(text)))| <= a.size
    requires |Lengths(SubAll(prefix, Paths(text)), Width(t))| <= b.size
    ensures var e := WriteSysdirs(x, t.h, prefix, Sysdirs(text, a.off, a.size), b.off);
            && |e| == |x|
            && (forall p :: 0 <= p < |x| && !a.Has(p) && !b.Has(p) ==> e[p] == x[p])
            && Paths(Read(e, a.off, a.size)) == SubAll(prefix, Paths(text))
            && (var lens := Lengths(SubAll(prefix, Paths(text)), Width(t)); e[b.off..b.off + |lens|] == lens)
            && WriteSysdirs(e, t.h, prefix, Sysdirs(Read(e, a.off, a.size), a.off, a.size), b.off) == e
  {
    var dirs, lens := NewSysdirs(prefix, text, a.size), Lengths(SubAll(prefix, Paths(text)), Width(t));
    assert |dirs| == a.size by { hide Paths, Strings, SubAll, Lengths, Plain; }
    hide Plain, Paths, Strings, SubAll, Lengths, NewSysdirs, Write;
    var e := Write(Write(x, a.off, dirs), b.off, lens);
    WriteTwo(x, a, b, dirs, lens);
    SysdirsTwice(prefix, text, a.size);
    hide Area.Apart, Area.Has, Read;
    WriteSame(e, a.off, dirs);
    WriteSame(e, b.off, lens);
    assert e == WriteSysdirs(x, t.h, prefix, Sysdirs(text, a.off, a.size), b.off);
    assert WriteSysdirs(e, t.h, prefix, Sysdirs(dirs, a.off, a.size), b.off) == Write(Write(e, a.off, dirs), b.off, lens);
  }

  /** In the written file, entry `i` of `.sysdirslen` is the length of string `i` of `.sysdirs`. The entries
      are little-endian whatever the file says. */
  lemma EntryIsLength(x: seq<Byte>, t: Tables, prefix: seq<Byte>, text: seq<Byte>, a: Area, b: Area, i: nat)
    requires Plain(prefix) && a.Apart(b) && a.off + a.size <= |x| && b.off + b.size <= |x|
    requires |Strings(SubAll(prefix, Paths(text)))| <= a.size
    requires |Lengths(SubAll(prefix, Paths(text)), Width(t))| <= b.size
    requires i < |Paths(text)| && |Sub(prefix, Paths(text)[i])| < Power(Width(t))
    ensures var e := WriteSysdirs(x, t.h, prefix, Sysdirs(text, a.off, a.size), b.off);
            var dirs := Paths(Read(e, a.off, a.size));
            var at := Row(b.off, i, Width(t));
            && dirs == SubAll(prefix, Paths(text)) && at + Width(t) <= |e|
            && Unpack(e[at..at + Width(t)]) == |dirs[i]|
  {
    hide Plain, Paths, Strings, SubAll, Lengths, Sub, Unpack, Power, Read, WriteSysdirs, Area.Apart, Area.Has;
    var w, lens := Width(t), Lengths(SubAll(prefix, Paths(text)), Width(t));
    LengthsAt(SubAll(prefix, Paths(text)), w, i);
    DirsTwice(x, t, prefix, text, a, b);
    EntrySlice(WriteSysdirs(x, t.h, prefix, Sysdirs(text, a.off, a.size), b.off), b.off, lens, i * w, w);
  }

  lemma EntrySlice(e: seq<Byte>, off: nat, lens: seq<Byte>, at: nat, w: nat)
    requires off + |lens| <= |e| && e[off..off + |lens|] == lens && at + w <= |lens|
    ensures e[off + at..off + at + w] == lens[at..at + w]
  {
    SliceOfSlice(e, off, off + |lens|, off + at, w);
  }

  lemma WriteTwo(x: seq<Byte>, a: Area, b: Area, u: seq<Byte>, v: seq<Byte>)
    requires a.Apart(b) && a.off + a.size <= |x| && b.off + b.size <= |x| && |u| == a.size && |v| <= b.size
    ensures var e := Write(Write(x, a.off, u), b.off, v);
            && |e| == |x| && e[a.off..a.off + a.size] == u == Read(e, a.off, a.size) && e[b.off..b.off + |v|] == v
            && forall p :: 0 <= p < |x| && !a.Has(p) && !b.Has(p) ==> e[p] == x[p]
  {
    var y := Write(x, a.off, u);
    WriteInside(x, a.off, u);
    var e := Write(y, b.off, v);
    WriteInside(y, b.off, v);
    hide Write;
    assert e[a.off..a.off + a.size] == u by {
      forall p | a.off <= p < a.off + a.size ensures e[p] == y[p] { assert !b.Has(p); }
    }
  }

  // ---- the whole file ----

  lemma InterpStage(d: seq<Byte>, t: Tables, prefix: seq<Byte>, dlPath: seq<Byte>)
    requires WellLaid(d, t, prefix)
    ensures var c := ElfFile.ChangeInterpreter(d, t.h, dlPath).data;
            Kept(d, t, c) && forall i: nat :: i < t.h.shnum ==> Same(d, c, PatchArea(d, t, i))
  {
    var n := t.h.shnum;
    var c := ElfFile.ChangeInterpreter(d, t.h, dlPath).data;
    assert Changes(d, c, PatchArea(d, t, n).off, PatchArea(d, t, n).size) by {
      match FindInterp(d, t.h, 0) {
        case (_, None) =>
        case (_, Some(seg)) =>
          var r := PatchInterp(d, seg, dlPath).data;
          if r != d { InterpIsPatched(d, seg, dlPath); }
      }
    }
    KeptThen(d, t, d, c, n);
    hide WellLaid, PatchArea, Changes;
    forall i: nat | i < n ensures Same(d, c, PatchArea(d, t, i)) { AreasApart(d, t, prefix, d, c, n, i); }
  }

  lemma InterpAgain(d: seq<Byte>, t: Tables, prefix: seq<Byte>, dlPath: seq<Byte>, e: seq<Byte>)
    requires WellLaid(d, t, prefix) && Kept(d, t, e)
    requires Same(ElfFile.ChangeInterpreter(d, t.h, dlPath).data, e, PatchArea(d, t, t.h.shnum))
    ensures ElfFile.ChangeInterpreter(e, t.h, dlPath) == Change(e, ElfFile.ChangeInterpreter(d, t.h, dlPath).status)
  {
    LaidTables(d, t, prefix, e);
    match FindInterp(d, t.h, 0) {
      case (_, None) =>
      case (_, Some(seg)) => InterpTwice(d, seg, dlPath, e, PatchArea(d, t, t.h.shnum).size);
    }
  }

  lemma {:induction false} GoodScanReads(d: seq<Byte>, t: Tables, prefix: seq<Byte>, d1: seq<Byte>, n: nat)
    requires WellLaid(d, t, prefix) && Plain(prefix) && Kept(d, t, d1) && n <= t.h.shnum
    requires ScanTo(d1, t.h, t.tab, prefix, n).status.Good?
    ensures forall i: nat :: i < n ==> SectionAt(d, t.h, i).Some?
  {
    hide WellLaid, ScanTo, Kept, Plain, SectionAt, SectionStep, Scanned, Reads;
    if n > 0 {
      NextScan(d1, t, prefix, n - 1);
      GoodScanReads(d, t, prefix, d1, n - 1);
      FirstScan(d, t, prefix, d1, n - 1);
      var s := ScanTo(d1, t.h, t.tab, prefix, n - 1);
      ScannedKept(d, t, prefix, d1, s, n - 1);
      LaidTables(d, t, prefix, s.data);
      StepReads(s, t, prefix, n - 1);
    }
  }

  lemma ScannedKept(d: seq<Byte>, t: Tables, prefix: seq<Byte>, d1: seq<Byte>, s: Scan, n: nat)
    requires n <= t.h.shnum && Scanned(d, t, prefix, d1, s, n)
    ensures Kept(d, t, s.data) && Same(d1, s.data, PatchArea(d, t, t.h.shnum))
    ensures s.sysdirs == DirsAt(d1, LastNamed(d, t, SYSDIRS, n))
    ensures s.sysdirslen == OffsetAt(LastNamed(d, t, SYSDIRSLEN, n))
    ensures forall i: nat :: i < n ==> SectionSettled(d, t, prefix, s.data, i)
  {
  }

  lemma StepReads(s: Scan, t: Tables, prefix: seq<Byte>, i: nat)
    requires s.status.Good? && SectionStep(s, t.h, t.tab, prefix, i).status.Good?
    ensures SectionAt(s.data, t.h, i).Some?
  {
  }

  lemma {:induction false} LastIsNamed(d: seq<Byte>, t: Tables, name: seq<Byte>, n: nat) returns (i: nat)
    requires n <= t.h.shnum && LastNamed(d, t, name, n).Some?
    ensures Named(d, t, i, name) && LastNamed(d, t, name, n) == Some(PatchArea(d, t, i))
  {
    if Named(d, t, n - 1, name) { i := n - 1; } else { i := LastIsNamed(d, t, name, n - 1); }
  }

  /** Writing the library directories changes no other area. */
  lemma DirsStage(d: seq<Byte>, t: Tables, prefix: seq<Byte>, x: seq<Byte>, e: seq<Byte>, j: nat, k: nat)
    requires WellLaid(d, t, prefix) && Kept(d, t, x) && Named(d, t, j, SYSDIRS) && Named(d, t, k, SYSDIRSLEN)
    requires forall i: nat :: i < t.h.shnum ==> SectionSettled(d, t, prefix, x, i)
    requires |e| == |x|
    requires forall p :: 0 <= p < |x| && !PatchArea(d, t, j).Has(p) && !PatchArea(d, t, k).Has(p) ==> e[p] == x[p]
    ensures Kept(d, t, e) && Same(x, e, PatchArea(d, t, t.h.shnum))
    ensures forall i: nat :: i < t.h.shnum ==> SectionSettled(d, t, prefix, e, i)
  {
    forall p | 0 <= p < |d| && !InPatch(d, t, p) ensures e[p] == x[p] {
      assert !PatchArea(d, t, j).Has(p) && !PatchArea(d, t, k).Has(p);
    }
    forall i: nat | i <= t.h.shnum && i != j && i != k ensures Same(x, e, PatchArea(d, t, i)) {
      OtherArea(d, t, prefix, x, e, i, j, k);
    }
    forall i: nat | i < t.h.shnum ensures SectionSettled(d, t, prefix, e, i) {
      if i != j && i != k { SectionStaysSettled(d, t, prefix, x, e, i); }
    }
  }

  lemma OtherArea(d: seq<Byte>, t: Tables, prefix: seq<Byte>, x: seq<Byte>, e: seq<Byte>, i: nat, j: nat, k: nat)
    requires WellLaid(d, t, prefix) && |x| == |d| == |e| && i <= t.h.shnum && j < t.h.shnum && k < t.h.shnum
    requires i != j && i != k
    requires forall p :: 0 <= p < |x| && !PatchArea(d, t, j).Has(p) && !PatchArea(d, t, k).Has(p) ==> e[p] == x[p]
    ensures Same(x, e, PatchArea(d, t, i))
  {
    var a, b, c := PatchArea(d, t, i), PatchArea(d, t, j), PatchArea(d, t, k);
    AreasLaid(d, t, prefix, i, j);
    AreasLaid(d, t, prefix, i, k);
    hide WellLaid, PatchArea;
    SameOutside(x, e, a, b, c);
  }

  lemma AreasLaid(d: seq<Byte>, t: Tables, prefix: seq<Byte>, i: nat, j: nat)
    requires WellLaid(d, t, prefix) && i <= t.h.shnum && j <= t.h.shnum && i != j
    ensures PatchArea(d, t, i).Apart(PatchArea(d, t, j))
    ensures PatchArea(d, t, i).off + PatchArea(d, t, i).size <= |d|
  {
    hide PatchArea, HeadersApart, Reads, Named, NewDirs;
  }

  lemma SameOutside(x: seq<Byte>, e: seq<Byte>, a: Area, b: Area, c: Area)
    requires |x| == |e| && a.off + a.size <= |x| && a.Apart(b) && a.Apart(c)
    requires forall p :: 0 <= p < |x| && !b.Has(p) && !c.Has(p) ==> e[p] == x[p]
    ensures Same(x, e, a)
  {
    forall p | a.off <= p < a.off + a.size ensures e[p] == x[p] { assert !b.Has(p) && !c.Has(p); }
  }

  /** The sections' step, done again on what it leaves, changes nothing. */
  lemma SectionsStage(d: seq<Byte>, t: Tables, prefix: seq<Byte>, d1: seq<Byte>)
    requires WellLaid(d, t, prefix) && Plain(prefix) && Kept(d, t, d1)
    requires forall i: nat :: i < t.h.shnum ==> Same(d, d1, PatchArea(d, t, i))
    requires ElfFile.ChangeDlSysdirs(d1, t.h, prefix).status.Good?
    ensures var e := ElfFile.ChangeDlSysdirs(d1, t.h, prefix).data;
            && Kept(d, t, e) && Same(d1, e, PatchArea(d, t, t.h.shnum))
            && ElfFile.ChangeDlSysdirs(e, t.h, prefix) == Change(e, Good)
  {
    var n := t.h.shnum;
    LaidTables(d, t, prefix, d1);
    var s := ScanTo(d1, t.h, t.tab, prefix, n);
    var x := s.data;
    SectionsUnfold(t, prefix, d1);
    FirstScan(d, t, prefix, d1, n);
    GoodScanReads(d, t, prefix, d1, n);
    ScannedKept(d, t, prefix, d1, s, n);
    hide WellLaid, ScanTo, Kept, Plain, SectionAt, Scanned, Reads, Same, PatchArea, SectionSettled, ElfFile.ChangeDlSysdirs;
    if s.sysdirs.None? {
      SecondScan(d, t, prefix, x, n);
      LaidTables(d, t, prefix, x);
      SectionsUnfold(t, prefix, x);
    } else {
      var j := LastIsNamed(d, t, SYSDIRS, n);
      var k := LastIsNamed(d, t, SYSDIRSLEN, n);
      var a, b := PatchArea(d, t, j), PatchArea(d, t, k);
      var text := Read(d1, a.off, a.size);
      DirsFit(d, t, prefix, d1, j, k);
      LaidTables(d, t, prefix, x);
      DirsTwice(x, t, prefix, text, a, b);
      var e := WriteSysdirs(x, t.h, prefix, Sysdirs(text, a.off, a.size), b.off);
      DirsStage(d, t, prefix, x, e, j, k);
      SecondScan(d, t, prefix, e, n);
      LaidTables(d, t, prefix, e);
      SectionsUnfold(t, prefix, e);
      SameThrice(d1, x, e, PatchArea(d, t, n));
    }
  }

  lemma {:induction false} SlotsNotRefused(d: seq<Byte>, prefix: seq<Byte>, off: nat, size: nat)
    ensures !PatchSlots(d, prefix, off, size).status.Refused?
    decreases size
  {
    hide PatchSlots, Patched, Write;
    FirstSlot(d, prefix, off, size);
    if size >= SLOT { SlotsNotRefused(PatchPart(d, prefix, off, SLOT).data, prefix, off + SLOT, size - SLOT); }
  }

  lemma {:induction false} ScanNotRefused(d: seq<Byte>, t: Tables, prefix: seq<Byte>, n: nat)
    ensures !ScanTo(d, t.h, t.tab, prefix, n).status.Refused?
  {
    hide SectionStep;
    if n > 0 {
      NextScan(d, t, prefix, n - 1);
      ScanNotRefused(d, t, prefix, n - 1);
      hide ScanTo;
      var s := ScanTo(d, t.h, t.tab, prefix, n - 1);
      if s.status.Good? {
        StepNotRefused(s, t, prefix, n - 1);
      }
    }
  }

  lemma StepNotRefused(s: Scan, t: Tables, prefix: seq<Byte>, i: nat)
    requires s.status.Good?
    ensures !SectionStep(s, t.h, t.tab, prefix, i).status.Refused?
  {
    hide PatchSlots, NameAt, Patched, Write, Read;
    if SectionAt(s.data, t.h, i).Some? {
      var sect := SectionAt(s.data, t.h, i).value;
      SlotsNotRefused(s.data, prefix, sect.offset, sect.size);
    }
  }

  lemma SectionsUnfold(t: Tables, prefix: seq<Byte>, e: seq<Byte>)
    requires Reads(e, t)
    ensures var s := ScanTo(e, t.h, t.tab, prefix, t.h.shnum);
            ElfFile.ChangeDlSysdirs(e, t.h, prefix) ==
              if !s.status.Good? || s.sysdirs.None? then Change(s.data, s.status)
              else if s.sysdirslen.None? then Change(s.data, Raised)
              else Change(WriteSysdirs(s.data, t.h, prefix, s.sysdirs.value, s.sysdirslen.value), Good)
  {
    hide WriteSysdirs, ScanTo, SectionAt, Read;
  }

  lemma DirNamesDiffer(d: seq<Byte>, t: Tables, j: nat, k: nat)
    requires Named(d, t, j, SYSDIRS) && Named(d, t, k, SYSDIRSLEN)
    ensures j != k && j < t.h.shnum && k < t.h.shnum
  {
    hide NameAt, SectionAt;
  }

  lemma DirsFit(d: seq<Byte>, t: Tables, prefix: seq<Byte>, d1: seq<Byte>, j: nat, k: nat)
    requires WellLaid(d, t, prefix) && Named(d, t, j, SYSDIRS) && Named(d, t, k, SYSDIRSLEN)
    requires Same(d, d1, PatchArea(d, t, j))
    ensures var a, b := PatchArea(d, t, j), PatchArea(d, t, k);
            var dirs := SubAll(prefix, Paths(Read(d1, a.off, a.size)));
            && a.off + a.size <= |d| && b.off + b.size <= |d| && a.Apart(b)
            && |Strings(dirs)| <= a.size && |Lengths(dirs, Width(t))| <= b.size
  {
    hide Strings, Lengths, SubAll, Paths, HeadersApart, Reads, NameAt, Read, Same;
    ReadSame(d, d1, PatchArea(d, t, j));
    DirNamesDiffer(d, t, j, k);
    hide PatchArea, Named, Area.Apart;
  }

  /** Relocating a well laid-out file keeps its size and all bytes outside the patch areas, and
      relocating it again changes nothing. */
  lemma RelocateTwice(d: seq<Byte>, t: Tables, prefix: seq<Byte>, dlPath: seq<Byte>)
    requires WellLaid(d, t, prefix) && Plain(prefix) && !ElfFile.Relocate(d, prefix, dlPath).status.Raised?
    ensures var r := ElfFile.Relocate(d, prefix, dlPath);
            Kept(d, t, r.data) && ElfFile.Relocate(r.data, prefix, dlPath) == r
  {
    RelocateUnfold(d, t, prefix, dlPath);
    var c := ElfFile.ChangeInterpreter(d, t.h, dlPath);
    InterpStage(d, t, prefix, dlPath);
    LaidTables(d, t, prefix, c.data);
    SectionsUnfold(t, prefix, c.data);
    ScanNotRefused(c.data, t, prefix, t.h.shnum);
    SectionsStage(d, t, prefix, c.data);
    var e := ElfFile.ChangeDlSysdirs(c.data, t.h, prefix).data;
    InterpAgain(d, t, prefix, dlPath, e);
    LaidTables(d, t, prefix, e);
    RelocateUnfold(e, t, prefix, dlPath);
  }

  lemma RelocateUnfold(d: seq<Byte>, t: Tables, prefix: seq<Byte>, dlPath: seq<Byte>)
    requires Reads(d, t)
    ensures var a := ElfFile.ChangeInterpreter(d, t.h, dlPath);
            var b := ElfFile.ChangeDlSysdirs(a.data, t.h, prefix);
            ElfFile.Relocate(d, prefix, dlPath) ==
              if a.status.Raised? then a else if b.status.Good? then Change(b.data, a.status) else b
  {
    hide ElfFile.ChangeInterpreter, ElfFile.ChangeDlSysdirs, SectionAt, ParseElfHeader, Read;
  }
}
