/** When relocating a well laid-out file fails, told from the file alone. */
module ElfFits {
  import opened Bytes
  import opened ElfFile
  import opened ElfLayout
  import opened ElfTwice
  import opened Relocation
  import opened Wrappers

  /** The path that is there still fits with the prefix put into it. */
  predicate Fits(prefix: seq<Byte>, d: seq<Byte>, off: nat, size: nat) {
    Patched(prefix, Read(d, off, size), size).Some?
  }

  ghost predicate SlotsFit(prefix: seq<Byte>, d: seq<Byte>, off: nat, size: nat) {
    forall k: nat :: Full(size, k) ==> Fits(prefix, d, SlotAt(off, k), SLOT)
  }

  /** The header of section `i` can be read, and every path in the section fits. */
  ghost predicate SectionFits(d: seq<Byte>, t: Tables, prefix: seq<Byte>, i: nat) {
    var a := PatchArea(d, t, i);
    && SectionAt(d, t.h, i).Some?
    && (Named(d, t, i, LDSOCACHE) ==> Fits(prefix, d, a.off, a.size))
    && (Named(d, t, i, GCCRELOCPREFIX) ==> SlotsFit(prefix, d, a.off, a.size))
  }

  /** The program headers can be read as far as they are searched, all sections fit, and the library
      directories have their lengths. */
  ghost predicate Relocatable(d: seq<Byte>, t: Tables, prefix: seq<Byte>) {
    && FindInterp(d, t.h, 0).0.Good?
    && (forall i: nat :: i < t.h.shnum ==> SectionFits(d, t, prefix, i))
    && (LastNamed(d, t, SYSDIRS, t.h.shnum).Some? ==> LastNamed(d, t, SYSDIRSLEN, t.h.shnum).Some?)
  }

  lemma FitsInSame(prefix: seq<Byte>, d: seq<Byte>, e: seq<Byte>, a: Area, off: nat, size: nat)
    requires Same(d, e, a) && a.off <= off && off + size <= a.off + a.size
    ensures Fits(prefix, e, off, size) <==> Fits(prefix, d, off, size)
  {
    hide Patched;
    SliceOfSlice(d, a.off, a.off + a.size, off, size);
    SliceOfSlice(e, a.off, a.off + a.size, off, size);
  }

  lemma FullInside(a: Area, k: nat)
    requires Full(a.size, k)
    ensures a.off <= SlotAt(a.off, k) && SlotAt(a.off, k) + SLOT <= a.off + a.size
  {
  }

  lemma SlotsFitInSame(prefix: seq<Byte>, d: seq<Byte>, e: seq<Byte>, a: Area)
    requires Same(d, e, a)
    ensures SlotsFit(prefix, e, a.off, a.size) <==> SlotsFit(prefix, d, a.off, a.size)
  {
    hide Same, Fits, Full, SlotAt;
    forall k: nat | Full(a.size, k)
      ensures Fits(prefix, e, SlotAt(a.off, k), SLOT) <==> Fits(prefix, d, SlotAt(a.off, k), SLOT)
    {
      FullInside(a, k);
      FitsInSame(prefix, d, e, a, SlotAt(a.off, k), SLOT);
    }
  }

  lemma SlotsFitFrom(prefix: seq<Byte>, d: seq<Byte>, off: nat, size: nat)
    requires size >= SLOT
    ensures SlotsFit(prefix, d, off, size) <==> Fits(prefix, d, off, SLOT) && SlotsFit(prefix, d, off + SLOT, size - SLOT)
  {
    hide Fits, Full, SlotAt;
    LaterSlot(off, size, 0);
    if SlotsFit(prefix, d, off, size) {
      var rest, at := size - SLOT, off + SLOT;
      forall k: nat | Full(rest, k) ensures Fits(prefix, d, SlotAt(at, k), SLOT) { LaterSlot(off, size, k); }
    }
    if Fits(prefix, d, off, SLOT) && SlotsFit(prefix, d, off + SLOT, size - SLOT) {
      forall k: nat | Full(size, k) ensures Fits(prefix, d, SlotAt(off, k), SLOT) {
        if k > 0 { LaterSlot(off, size, k - 1); }
      }
    }
  }

  lemma {:induction false} SlotsFitIff(d: seq<Byte>, prefix: seq<Byte>, off: nat, size: nat)
    requires off + size <= |d|
    ensures PatchSlots(d, prefix, off, size).status.Good? <==> SlotsFit(prefix, d, off, size)
    decreases size
  {
    hide PatchSlots, SlotsFit, Patched, Same, Changes;
    FirstSlot(d, prefix, off, size);
    if size < SLOT {
      NoSlots(size);
      NothingToFit(prefix, d, off, size);
    } else {
      SlotsFitFrom(prefix, d, off, size);
      PartIsPatched(d, prefix, off, SLOT);
      var c := PatchPart(d, prefix, off, SLOT);
      if c.status.Good? {
        SlotsFitIff(c.data, prefix, off + SLOT, size - SLOT);
        var a, b := Area(off, SLOT), Area(off + SLOT, size - SLOT);
        ChangesElsewhere(d, c.data, a, b);
        SlotsFitInSame(prefix, d, c.data, b);
      }
    }
  }

  lemma NothingToFit(prefix: seq<Byte>, d: seq<Byte>, off: nat, size: nat)
    requires forall k: nat :: !Full(size, k)
    ensures SlotsFit(prefix, d, off, size)
  {
  }

  lemma StepFitsIff(d: seq<Byte>, t: Tables, prefix: seq<Byte>, s: Scan, i: nat)
    requires i < t.h.shnum && SectionAt(s.data, t.h, i) == SectionAt(d, t.h, i)
    requires Same(d, s.data, PatchArea(d, t, i)) && s.status.Good?
    ensures SectionStep(s, t.h, t.tab, prefix, i).status.Good? <==> SectionFits(d, t, prefix, i)
  {
    hide PatchSlots, SlotsFit, NameAt, Patched;
    if SectionAt(d, t.h, i).Some? {
      var a := PatchArea(d, t, i);
      if Named(d, t, i, LDSOCACHE) { FitsInSame(prefix, d, s.data, a, a.off, a.size); }
      if Named(d, t, i, GCCRELOCPREFIX) {
        SlotsFitInSame(prefix, d, s.data, a);
        SlotsFitIff(s.data, prefix, a.off, a.size);
      }
    }
  }

  lemma {:induction false} ScanFitsIff(d: seq<Byte>, t: Tables, prefix: seq<Byte>, d1: seq<Byte>, n: nat)
    requires WellLaid(d, t, prefix) && Plain(prefix) && Kept(d, t, d1) && n <= t.h.shnum
    requires forall i: nat :: i < t.h.shnum ==> Same(d, d1, PatchArea(d, t, i))
    ensures ScanTo(d1, t.h, t.tab, prefix, n).status.Good? <==> forall i: nat :: i < n ==> SectionFits(d, t, prefix, i)
  {
    hide WellLaid, ScanTo, Kept, Plain, SectionStep, SectionFits, Same, SectionAt, PatchArea, Scanned, Reads;
    if n == 0 {
      ScanStarts(d, t, prefix, d1);
    } else {
      NextScan(d1, t, prefix, n - 1);
      ScanFitsIff(d, t, prefix, d1, n - 1);
      var s := ScanTo(d1, t.h, t.tab, prefix, n - 1);
      if s.status.Good? {
        FirstScan(d, t, prefix, d1, n - 1);
        ScannedSame(d, t, prefix, d1, s, n - 1);
        LaidTables(d, t, prefix, s.data);
        SameThrice(d, d1, s.data, PatchArea(d, t, n - 1));
        StepFitsIff(d, t, prefix, s, n - 1);
      }
    }
  }

  lemma ScannedSame(d: seq<Byte>, t: Tables, prefix: seq<Byte>, d1: seq<Byte>, s: Scan, n: nat)
    requires n < t.h.shnum && Scanned(d, t, prefix, d1, s, n)
    ensures Kept(d, t, s.data) && Same(d1, s.data, PatchArea(d, t, n))
  {
  }

  lemma InterpNotRaised(d: seq<Byte>, h: Header, dlPath: seq<Byte>)
    ensures ElfFile.ChangeInterpreter(d, h, dlPath).status.Raised? <==> !FindInterp(d, h, 0).0.Good?
  {
    FindEnds(d, h, 0);
  }

  lemma {:induction false} FindEnds(d: seq<Byte>, h: Header, i: nat)
    requires i <= h.phnum
    ensures FindInterp(d, h, i).0.Good? || FindInterp(d, h, i) == (Raised, None)
    decreases h.phnum - i
  {
    if i < h.phnum { FindEnds(d, h, i + 1); }
  }

  /** Relocating a well laid-out file raises exactly if the file is not relocatable. */
  lemma RaisesIff(d: seq<Byte>, t: Tables, prefix: seq<Byte>, dlPath: seq<Byte>)
    requires WellLaid(d, t, prefix) && Plain(prefix)
    ensures ElfFile.Relocate(d, prefix, dlPath).status.Raised? <==> !Relocatable(d, t, prefix)
  {
    var n := t.h.shnum;
    var c := ElfFile.ChangeInterpreter(d, t.h, dlPath);
    LaidTables(d, t, prefix, d);
    RelocateUnfold(d, t, prefix, dlPath);
    InterpNotRaised(d, t.h, dlPath);
    InterpStage(d, t, prefix, dlPath);
    LaidTables(d, t, prefix, c.data);
    SectionsUnfold(t, prefix, c.data);
    ScanNotRefused(c.data, t, prefix, n);
    ScanFitsIff(d, t, prefix, c.data, n);
    var s := ScanTo(c.data, t.h, t.tab, prefix, n);
    if s.status.Good? {
      FirstScan(d, t, prefix, c.data, n);
      ScannedKept(d, t, prefix, c.data, s, n);
    }
    hide WellLaid, ScanTo, Kept, Plain, SectionAt, Scanned, Reads, Same, PatchArea, SectionFits, FindInterp, LastNamed;
  }
}
