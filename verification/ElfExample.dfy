/** A file that relocation is meant for: a program with all the parts that are patched, to which
    `ElfTwice.RelocateTwice` applies. */
module ElfExample {
  import opened Bytes
  import opened ElfFile
  import opened ElfFits
  import opened ElfHeaders
  import opened ElfLayout
  import opened ElfTwice
  import opened Relocation
  import opened Wrappers

  const HEADER := Header(false, false, 64, 32, 1, 96, 40, 5, 4)
  const INTERP := Segment(3, 345, 32)
  const SECTIONS: seq<Section> := [
    Section(1, 1, 409, 4096), Section(17, 1, 4505, 32), Section(26, 1, 4537, 32),
    Section(38, 1, 377, 32), Section(0, 3, 296, 49)]
  const SECTION_NAMES: seq<seq<Byte>> := [GCCRELOCPREFIX, SYSDIRS, SYSDIRSLEN, LDSOCACHE]
  const AREAS: seq<Area> :=
    [Area(409, 4096), Area(4505, 32), Area(4537, 32), Area(377, 32), Area(0, 0), Area(345, 32)]

  function NameBytes(): (b: seq<Byte>)
    ensures |b| == 49
  {
    [NUL] + GCCRELOCPREFIX + [NUL] + SYSDIRS + [NUL] + SYSDIRSLEN + [NUL] + LDSOCACHE + [NUL]
  }

  // What relocation does not look at is zero.

  function HeaderPart(): (b: seq<Byte>)
    ensures |b| == 64
  {
    HeaderBytes(HEADER, HeaderRest([69, 76, 70], 1, Zeros(10), Zeros(12), Zeros(6), Zeros(12)))
  }

  function SegmentPart(): (b: seq<Byte>)
    ensures |b| == 32
  {
    SegmentBytes(HEADER, INTERP, SegmentRest([], Zeros(8), Zeros(12)))
  }

  function SectionPart(s: Section): (b: seq<Byte>)
    ensures |b| == 40
  {
    SectionBytes(HEADER, s, SectionRest(Zeros(8), Zeros(16)))
  }

  function Rows(sections: seq<Section>): (b: seq<Byte>)
    ensures |b| == 40 * |sections|
  {
    if sections == [] then [] else Rows(sections[..|sections| - 1]) + SectionPart(sections[|sections| - 1])
  }

  lemma {:induction false} RowAt(sections: seq<Section>, i: nat)
    requires i < |sections|
    ensures Rows(sections)[40 * i..40 * i + 40] == SectionPart(sections[i])
  {
    hide SectionPart;
    var n := |sections| - 1;
    var front, last := Rows(sections[..n]), SectionPart(sections[n]);
    if i < n {
      RowAt(sections[..n], i);
      FirstPart(front, last, 40 * i, 40 * i + 40);
    } else {
      LastPart(front, last);
    }
  }

  function TablesOf(): Tables { Tables(HEADER, SECTIONS[4], NameBytes()) }

  /** The program, for any contents of the parts. */
  function Program(rest: seq<Byte>): seq<Byte> {
    HeaderPart() + SegmentPart() + Rows(SECTIONS) + NameBytes() + rest
  }

  lemma PartsRead(rest: seq<Byte>)
    ensures var d := Program(rest);
            && |d| == 345 + |rest| && Read(d, 0, 64) == HeaderPart() && Read(d, 64, 32) == SegmentPart()
            && d[96..296] == Rows(SECTIONS) && Read(d, 296, 49) == NameBytes()
  {
    hide HeaderPart, SegmentPart, Rows, NameBytes;
  }

  lemma SectionRead(rest: seq<Byte>, i: nat)
    requires i < 5
    ensures SectionAt(Program(rest), HEADER, i) == Some(SECTIONS[i])
  {
    var d := Program(rest);
    PartsRead(rest);
    RowAt(SECTIONS, i);
    hide Program, Rows;
    SliceOfSlice(d, 96, 296, 96 + 40 * i, 40);
    assert Read(d, Row(96, i, 40), 40) == SectionPart(SECTIONS[i]);
    Bounds();
    hide SectionBytes;
    SectionIff(HEADER, SectionPart(SECTIONS[i]), SECTIONS[i]);
  }

  lemma Bounds()
    ensures Power(2) == 65536 && Power(4) == 65536 * 65536
  {
    assert Power(1) == 256 && Power(3) == 256 * 65536;
  }

  lemma NameEnds(tab: seq<Byte>, n: nat, name: seq<Byte>)
    requires n + |name| < |tab| && tab[n..n + |name|] == name && tab[n + |name|] == NUL
    ensures tab[n..] == name + [NUL] + tab[n + |name| + 1..]
  {
  }

  lemma NamesRead(i: nat)
    requires i < 4
    ensures NameAt(NameBytes(), SECTIONS[i].name) == SECTION_NAMES[i]
  {
    hide NameAt;
    var b := NameBytes();
    if i == 0 {
      assert b[1..16] == GCCRELOCPREFIX;
    } else if i == 1 {
      assert b[17..25] == SYSDIRS;
    } else if i == 2 {
      assert b[26..37] == SYSDIRSLEN;
    } else {
      assert b[38..48] == LDSOCACHE;
    }
    var n, name := SECTIONS[i].name, SECTION_NAMES[i];
    NameEnds(b, n, name);
    NameAtIs(b, n, name, b[n + |name| + 1..]);
  }

  lemma AreaIs(rest: seq<Byte>, i: nat)
    requires i <= 5
    ensures PatchArea(Program(rest), TablesOf(), i) == AREAS[i]
  {
    hide Program, NameBytes, SectionAt, NameAt, FindInterp;
    if i < 5 {
      SectionRead(rest, i);
      if i < 4 { NamesRead(i); }
    } else {
      InterpRead(rest);
    }
  }

  lemma InterpRead(rest: seq<Byte>)
    ensures FindInterp(Program(rest), HEADER, 0) == (Good, Some(INTERP))
  {
    PartsRead(rest);
    hide Program, SegmentBytes;
    Bounds();
    SegmentIff(HEADER, SegmentPart(), INTERP);
  }

  lemma NamedIs(rest: seq<Byte>, i: nat)
    ensures forall name :: name in SECTION_NAMES ==>
      (Named(Program(rest), TablesOf(), i, name) <==> i < 4 && SECTION_NAMES[i] == name)
  {
    hide Program, NameBytes, SectionAt, NameAt;
    if i < 5 {
      SectionRead(rest, i);
      if i < 4 { NamesRead(i); }
    }
  }

  lemma NoHeaderPatched(rest: seq<Byte>, p: nat)
    requires p < 345
    ensures !InPatch(Program(rest), TablesOf(), p)
  {
    hide Program, PatchArea;
    forall i: nat | i <= 5 ensures !PatchArea(Program(rest), TablesOf(), i).Has(p) { AreaIs(rest, i); }
  }

  lemma HeadersAreApart(rest: seq<Byte>)
    ensures HeadersApart(Program(rest), TablesOf())
  {
    hide Program, NameBytes, InPatch;
    forall p: nat | p < 345 ensures !InPatch(Program(rest), TablesOf(), p) { NoHeaderPatched(rest, p); }
  }

  lemma TablesRead(rest: seq<Byte>)
    ensures Reads(Program(rest), TablesOf())
  {
    PartsRead(rest);
    Bounds();
    HeaderRoundTrip(HEADER, HeaderRest([69, 76, 70], 1, Zeros(10), Zeros(12), Zeros(6), Zeros(12)));
    SectionRead(rest, 4);
    hide Program, HeaderBytes, NameBytes, SectionAt, ParseElfHeader;
  }

  lemma AreasAreApart(i: nat, j: nat)
    requires i <= 5 && j <= 5 && i != j
    ensures AREAS[i].Apart(AREAS[j]) && AREAS[i].off + AREAS[i].size <= 4569
  {
  }

  /** The library directories fit with the new prefix. */
  predicate DirsFitIn(d: seq<Byte>, prefix: seq<Byte>) {
    var dirs := NewDirs(d, prefix, Area(4505, 32));
    |Strings(dirs)| <= 32 && |Lengths(dirs, 4)| <= 32
  }

  lemma ProgramIsWellLaid(rest: seq<Byte>, prefix: seq<Byte>)
    requires |rest| == 4224 && DirsFitIn(Program(rest), prefix)
    ensures WellLaid(Program(rest), TablesOf(), prefix)
  {
    hide Program, Reads, HeadersApart, PatchArea, Named, DirsFitIn, NameBytes, WellLaid;
    var d, t := Program(rest), TablesOf();
    TablesRead(rest);
    HeadersAreApart(rest);
    PartsRead(rest);
    forall i: nat | i <= 5 ensures PatchArea(d, t, i) == AREAS[i] { AreaIs(rest, i); }
    forall i: nat ensures Named(d, t, i, SYSDIRS) ==> i == 1 { DirsNamed(rest, i); }
    forall i: nat ensures Named(d, t, i, SYSDIRSLEN) ==> i == 2 { DirsNamed(rest, i); }
    LaidIf(d, t, prefix);
  }

  lemma LaidIf(d: seq<Byte>, t: Tables, prefix: seq<Byte>)
    requires Reads(d, t) && HeadersApart(d, t) && t.h.shnum == 5 && !t.h.wide && |d| == 4569
    requires forall i: nat :: i <= 5 ==> PatchArea(d, t, i) == AREAS[i]
    requires forall i: nat :: Named(d, t, i, SYSDIRS) ==> i == 1
    requires forall i: nat :: Named(d, t, i, SYSDIRSLEN) ==> i == 2
    requires DirsFitIn(d, prefix)
    ensures WellLaid(d, t, prefix)
  {
    hide Reads, HeadersApart, PatchArea, Named, NewDirs, Strings, Lengths, Area.Apart;
    forall i: nat, j: nat | i <= 5 && j <= 5 && i != j ensures PatchArea(d, t, i).Apart(PatchArea(d, t, j)) {
      AreasAreApart(i, j);
    }
    forall i: nat | i <= 5 ensures PatchArea(d, t, i).off + PatchArea(d, t, i).size <= 4569 {
      AreasAreApart(i, if i == 0 then 1 else 0);
    }
  }

  lemma DirsNamed(rest: seq<Byte>, i: nat)
    ensures Named(Program(rest), TablesOf(), i, SYSDIRS) <==> i == 1
    ensures Named(Program(rest), TablesOf(), i, SYSDIRSLEN) <==> i == 2
  {
    NamedIs(rest, i);
    hide Named;
    assert SYSDIRS in SECTION_NAMES && SYSDIRSLEN in SECTION_NAMES;
  }

  lemma {:induction false} SomeNamed(d: seq<Byte>, t: Tables, name: seq<Byte>, n: nat, i: nat)
    requires i < n <= t.h.shnum && Named(d, t, i, name)
    ensures LastNamed(d, t, name, n).Some?
  {
    if !Named(d, t, n - 1, name) { SomeNamed(d, t, name, n - 1, i); }
  }

  lemma OneSlotFits(prefix: seq<Byte>, d: seq<Byte>, off: nat)
    ensures SlotsFit(prefix, d, off, SLOT) <==> Fits(prefix, d, off, SLOT)
  {
    hide Fits;
    SlotsFitFrom(prefix, d, off, SLOT);
    NoSlots(0);
    NothingToFit(prefix, d, off + SLOT, 0);
  }

  lemma SectionFitsIff(rest: seq<Byte>, prefix: seq<Byte>, i: nat)
    requires i < 5
    ensures var d := Program(rest);
            SectionFits(d, TablesOf(), prefix, i) <==>
              (i == 3 ==> Fits(prefix, d, 377, 32)) && (i == 0 ==> Fits(prefix, d, 409, SLOT))
  {
    AreaIs(rest, i);
    SectionRead(rest, i);
    PartNamed(rest, i);
    OneSlotFits(prefix, Program(rest), 409);
    hide Program, PatchArea, Named, Fits, SlotsFit, SectionAt, NameBytes;
  }

  lemma PartNamed(rest: seq<Byte>, i: nat)
    ensures Named(Program(rest), TablesOf(), i, LDSOCACHE) <==> i == 3
    ensures Named(Program(rest), TablesOf(), i, GCCRELOCPREFIX) <==> i == 0
  {
    NamedIs(rest, i);
    hide Named;
    assert LDSOCACHE in SECTION_NAMES && GCCRELOCPREFIX in SECTION_NAMES;
  }

  lemma RelocatableIff(rest: seq<Byte>, prefix: seq<Byte>)
    ensures var d := Program(rest);
            Relocatable(d, TablesOf(), prefix) <==> Fits(prefix, d, 377, 32) && Fits(prefix, d, 409, SLOT)
  {
    hide Program, NameBytes, SectionFits, Fits, FindInterp, LastNamed, Named;
    var d, t := Program(rest), TablesOf();
    InterpRead(rest);
    forall i: nat | i < 5
      ensures SectionFits(d, t, prefix, i) <==>
        (i == 3 ==> Fits(prefix, d, 377, 32)) && (i == 0 ==> Fits(prefix, d, 409, SLOT))
    {
      SectionFitsIff(rest, prefix, i);
    }
    DirsNamed(rest, 2);
    SomeNamed(d, t, SYSDIRSLEN, 5, 2);
    assert Relocatable(d, t, prefix) ==> SectionFits(d, t, prefix, 0) && SectionFits(d, t, prefix, 3);
  }

  /** If its library directories fit, such a program is relocated without an exception exactly if its
      other two paths fit; then its size and all else stay, and a second relocation changes nothing. */
  lemma ProgramRelocates(rest: seq<Byte>, prefix: seq<Byte>, dlPath: seq<Byte>)
    requires |rest| == 4224 && Plain(prefix) && DirsFitIn(Program(rest), prefix)
    ensures var d, t := Program(rest), TablesOf();
            var r := ElfFile.Relocate(d, prefix, dlPath);
            && (r.status.Raised? <==> !(Fits(prefix, d, 377, 32) && Fits(prefix, d, 409, SLOT)))
            && (!r.status.Raised? ==> Kept(d, t, r.data) && ElfFile.Relocate(r.data, prefix, dlPath) == r)
  {
    hide *;
    var d, t := Program(rest), TablesOf();
    ProgramIsWellLaid(rest, prefix);
    RaisesIff(d, t, prefix, dlPath);
    RelocatableIff(rest, prefix);
    if !ElfFile.Relocate(d, prefix, dlPath).status.Raised? {
      RelocateTwice(d, t, prefix, dlPath);
    }
  }
}
