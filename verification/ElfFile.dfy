/** poky/scripts/relocate_sdk.py: relocating an ELF file in place. The file is a list of bytes with a
    position; what each function of the script leaves in it is a function of its bytes. */
module ElfFile {
  import opened Bytes
  import opened Lists
  import opened Relocation
  import opened Wrappers

  // ---- files ----

  function Read(d: seq<Byte>, off: nat, n: nat): (b: seq<Byte>)
    ensures |b| <= n && (off + n <= |d| ==> b == d[off..off + n])
  {
    if off >= |d| then [] else if off + n <= |d| then d[off..off + n] else d[off..]
  }

  /** Writing beyond the end makes the file longer. */
  function Write(d: seq<Byte>, off: nat, b: seq<Byte>): seq<Byte> {
    if b == [] then d
    else
      var e := if off > |d| then d + Zeros(off - |d|) else d;
      e[..off] + b + if off + |b| < |e| then e[off + |b|..] else []
  }

  /** Every byte of what is read, and of the file after a write. */
  lemma ReadIs(d: seq<Byte>, off: nat, n: nat)
    ensures var b := Read(d, off, n);
            && |b| == (if off + n <= |d| then n else if off <= |d| then |d| - off else 0)
            && forall k :: 0 <= k < |b| ==> b[k] == d[off + k]
  {
  }

  lemma WriteIs(d: seq<Byte>, off: nat, b: seq<Byte>)
    ensures var e := Write(d, off, b);
            && |e| == (if b == [] || off + |b| <= |d| then |d| else off + |b|)
            && forall p :: 0 <= p < |e| ==>
                 e[p] == if off <= p < off + |b| then b[p - off] else if p < |d| then d[p] else NUL
  {
  }

  lemma WriteInside(d: seq<Byte>, off: nat, b: seq<Byte>)
    requires off + |b| <= |d|
    ensures |Write(d, off, b)| == |d| && Write(d, off, b)[off..off + |b|] == b
    ensures forall p :: 0 <= p < |d| && !(off <= p < off + |b|) ==> Write(d, off, b)[p] == d[p]
  {
  }

  class OpenFile {
    var data: seq<Byte>
    var pos: nat

    constructor (data: seq<Byte>)
      ensures this.data == data && pos == 0
    {
      this.data, pos := data, 0;
    }

    method Seek(off: nat)
      modifies `pos
      ensures pos == off
    {
      pos := off;
    }

    method ReadNext(n: nat) returns (b: seq<Byte>)
      modifies `pos
      ensures b == Read(data, old(pos), n) && pos == old(pos) + |b|
    {
      b := Read(data, pos, n);
      pos := pos + |b|;
    }

    method WriteNext(b: seq<Byte>)
      modifies this
      ensures data == Write(old(data), old(pos), b) && pos == old(pos) + |b|
    {
      data := Write(data, pos, b);
      pos := pos + |b|;
    }
  }

  // ---- headers ----

  function BigEndian(b: seq<Byte>): nat {
    if b == [] then 0 else 256 * BigEndian(b[..|b| - 1]) + b[|b| - 1] as nat
  }

  /** The number in `n` bytes from `at` on. */
  function Field(big: bool, b: seq<Byte>, at: nat, n: nat): nat
    requires at + n <= |b|
  {
    if big then BigEndian(b[at..at + n]) else Unpack(b[at..at + n])
  }

  datatype Header = Header(wide: bool, big: bool, phoff: nat, phentsize: nat, phnum: nat,
                           shoff: nat, shentsize: nat, shnum: nat, shstrndx: nat)

  /** `get_arch` and `parse_elf_header`. Of the magic number only the first byte counts: the test of the
      other three compares bytes with text, and is always true. */
  function ParseElfHeader(b: seq<Byte>): Option<Header>
    requires |b| == 64
  {
    var big := b[5] != 1;
    if b[0] != 0x7f || (b[4] != 1 && b[4] != 2) then None
    else if b[4] == 1 then
      Some(Header(false, big, Field(big, b, 28, 4), Field(big, b, 42, 2), Field(big, b, 44, 2),
                  Field(big, b, 32, 4), Field(big, b, 46, 2), Field(big, b, 48, 2), Field(big, b, 50, 2)))
    else
      Some(Header(true, big, Field(big, b, 32, 8), Field(big, b, 54, 2), Field(big, b, 56, 2),
                  Field(big, b, 40, 8), Field(big, b, 58, 2), Field(big, b, 60, 2), Field(big, b, 62, 2)))
  }

  datatype Segment = Segment(kind: nat, offset: nat, filesz: nat)
  datatype Section = Section(name: nat, kind: nat, offset: nat, size: nat)

  /** A program header; none if its size is not the one that `struct.unpack` expects. */
  function UnpackSegment(h: Header, b: seq<Byte>): Option<Segment> {
    if |b| != (if h.wide then 56 else 32) then None
    else if h.wide then Some(Segment(Field(h.big, b, 0, 4), Field(h.big, b, 8, 8), Field(h.big, b, 32, 8)))
    else Some(Segment(Field(h.big, b, 0, 4), Field(h.big, b, 4, 4), Field(h.big, b, 16, 4)))
  }

  function UnpackSection(h: Header, b: seq<Byte>): Option<Section> {
    if |b| != (if h.wide then 64 else 40) then None
    else if h.wide then
      Some(Section(Field(h.big, b, 0, 4), Field(h.big, b, 4, 4), Field(h.big, b, 24, 8), Field(h.big, b, 32, 8)))
    else
      Some(Section(Field(h.big, b, 0, 4), Field(h.big, b, 4, 4), Field(h.big, b, 16, 4), Field(h.big, b, 20, 4)))
  }

  /** Where row `i` of a table starts. */
  function Row(off: nat, i: nat, size: nat): nat { off + i * size }

  function SegmentAt(d: seq<Byte>, h: Header, i: nat): Option<Segment> {
    UnpackSegment(h, Read(d, Row(h.phoff, i, h.phentsize), h.phentsize))
  }

  function SectionAt(d: seq<Byte>, h: Header, i: nat): Option<Section> {
    UnpackSection(h, Read(d, Row(h.shoff, i, h.shentsize), h.shentsize))
  }

  /** How a function of the script ends: well, with an error that is reported, or by an exception or exit. */
  datatype Status = Good | Refused | Raised
  datatype Change = Change(data: seq<Byte>, status: Status)

  // ---- the interpreter ----

  const PT_INTERP := 3
  const LIB_DIRS: seq<seq<Byte>> := [
    [47, 108, 105, 98, 47], [47, 108, 105, 98, 54, 52, 47], [47, 108, 105, 98, 51, 50, 47],
    [47, 117, 115, 114, 47, 108, 105, 98, 51, 50, 47], [47, 117, 115, 114, 47, 108, 105, 98, 54, 52, 47]]

  /** The interpreter is one of the host's, under `/lib/` and the like. */
  predicate IsHosts(d: seq<Byte>, off: nat) {
    exists k :: 0 <= k < |LIB_DIRS| && LIB_DIRS[k] <= Read(d, off, 11)
  }

  /** Whatever the length of the directory: the file has it at that place. */
  lemma IsHostsIff(d: seq<Byte>, off: nat)
    ensures IsHosts(d, off) <==>
      exists k :: 0 <= k < |LIB_DIRS| && off + |LIB_DIRS[k]| <= |d| && d[off..off + |LIB_DIRS[k]|] == LIB_DIRS[k]
  {
    forall k | 0 <= k < |LIB_DIRS|
      ensures LIB_DIRS[k] <= Read(d, off, 11) <==>
        off + |LIB_DIRS[k]| <= |d| && d[off..off + |LIB_DIRS[k]|] == LIB_DIRS[k]
    {
      ReadStarts(d, off, 11, LIB_DIRS[k]);
    }
  }

  lemma ReadStarts(d: seq<Byte>, off: nat, n: nat, x: seq<Byte>)
    requires 0 < |x| <= n
    ensures x <= Read(d, off, n) <==> off + |x| <= |d| && d[off..off + |x|] == x
  {
    var b := Read(d, off, n);
    if |x| <= |b| { assert b[..|x|] == d[off..off + |x|]; }
  }

  /** From header `i` on, the first one of the interpreter. */
  function FindInterp(d: seq<Byte>, h: Header, i: nat): (r: (Status, Option<Segment>))
    requires i <= h.phnum
    decreases h.phnum - i
  {
    if i == h.phnum then (Good, None)
    else
      match SegmentAt(d, h, i)
      case None => (Raised, None)
      case Some(seg) => if seg.kind == PT_INTERP then (Good, Some(seg)) else FindInterp(d, h, i + 1)
  }

  function ChangeInterpreter(d: seq<Byte>, h: Header, dlPath: seq<Byte>): Change {
    match FindInterp(d, h, 0)
    case (status, None) => Change(d, status)
    case (_, Some(seg)) => PatchInterp(d, seg, dlPath)
  }

  function PatchInterp(d: seq<Byte>, seg: Segment, dlPath: seq<Byte>): Change {
    if IsHosts(d, seg.offset) || seg.filesz == 0 then Change(d, Good)
    else if |dlPath| >= seg.filesz then Change(d, Refused)
    else Change(Write(d, seg.offset, dlPath + Zeros(seg.filesz - |dlPath|)), Good)
  }

  /** A patched interpreter is the new path and at least one NUL; no other byte changes, and the file
      keeps its size exactly if it held the whole segment. */
  lemma InterpIsPatched(d: seq<Byte>, seg: Segment, dlPath: seq<Byte>)
    requires !IsHosts(d, seg.offset) && |dlPath| < seg.filesz
    ensures var r := PatchInterp(d, seg, dlPath).data;
            && Read(r, seg.offset, seg.filesz) == dlPath + Zeros(seg.filesz - |dlPath|)
            && (|r| == |d| <==> seg.offset + seg.filesz <= |d|)
            && |r| >= |d| && forall p :: 0 <= p < |d| && !(seg.offset <= p < seg.offset + seg.filesz) ==> r[p] == d[p]
  {
  }

  // ---- sections ----

  const SHT_PROGBITS := 1
  const SYSDIRS: seq<Byte> := [46, 115, 121, 115, 100, 105, 114, 115]
  const SYSDIRSLEN: seq<Byte> := [46, 115, 121, 115, 100, 105, 114, 115, 108, 101, 110]
  const LDSOCACHE: seq<Byte> := [46, 108, 100, 115, 111, 99, 97, 99, 104, 101]
  const GCCRELOCPREFIX: seq<Byte> :=
    [46, 103, 99, 99, 114, 101, 108, 111, 99, 112, 114, 101, 102, 105, 120]
  const SLOT := 4096

  /** `tab[n:tab.find(b"\0", n)]`: without a NUL, all but the last byte. */
  function NameAt(tab: seq<Byte>, n: nat): seq<Byte> {
    if n >= |tab| then []
    else
      var k := Find(tab[n..], NUL);
      if n + k < |tab| then tab[n..n + k] else tab[n..|tab| - 1]
  }

  /** A name ends before its NUL; where none follows, the last byte is lost. */
  lemma NameAtIs(tab: seq<Byte>, n: nat, name: seq<Byte>, rest: seq<Byte>)
    requires n < |tab|
    ensures NulFree(name) && tab[n..] == name + [NUL] + rest ==> NameAt(tab, n) == name
    ensures NulFree(tab[n..]) ==> NameAt(tab, n) == tab[n..|tab| - 1]
  {
    if NulFree(name) && tab[n..] == name + [NUL] + rest {
      FindAfter(name, NUL, rest);
      assert tab[n..n + |name|] == tab[n..][..|name|];
    }
    hide Find;
  }

  /** The names and directories of the script, as texts. */
  lemma NamesSpelled()
    ensures SYSDIRS == Ascii(".sysdirs") && SYSDIRSLEN == Ascii(".sysdirslen") && LDSOCACHE == Ascii(".ldsocache")
    ensures GCCRELOCPREFIX == Ascii(".gccrelocprefix")
    ensures LIB_DIRS == [Ascii("/lib/"), Ascii("/lib64/"), Ascii("/lib32/"), Ascii("/usr/lib32/"), Ascii("/usr/lib64/")]
  {
    assert LIB_DIRS[0] == Ascii("/lib/") && LIB_DIRS[1] == Ascii("/lib64/") && LIB_DIRS[2] == Ascii("/lib32/");
    assert LIB_DIRS[3] == Ascii("/usr/lib32/") && LIB_DIRS[4] == Ascii("/usr/lib64/");
  }

  function PatchPart(d: seq<Byte>, prefix: seq<Byte>, off: nat, size: nat): Change {
    match Patched(prefix, Read(d, off, size), size)
    case None => Change(d, Raised)
    case Some(part) => Change(Write(d, off, part), Good)
  }

  /** The full slots of `.gccrelocprefix`, one after the other. */
  function PatchSlots(d: seq<Byte>, prefix: seq<Byte>, off: nat, size: nat): Change
    decreases size
  {
    if size < SLOT then Change(d, Good)
    else
      var c := PatchPart(d, prefix, off, SLOT);
      if c.status.Good? then PatchSlots(c.data, prefix, off + SLOT, size - SLOT) else c
  }

  datatype Sysdirs = Sysdirs(text: seq<Byte>, offset: nat, size: nat)

  /** The loop over the sections, after some of them. */
  datatype Scan = Scan(data: seq<Byte>, sysdirs: Option<Sysdirs>, sysdirslen: Option<nat>, status: Status)

  function SectionStep(s: Scan, h: Header, tab: seq<Byte>, prefix: seq<Byte>, i: nat): Scan {
    match SectionAt(s.data, h, i)
    case None => s.(status := Raised)
    case Some(sect) =>
      var name := NameAt(tab, sect.name);
      if sect.kind != SHT_PROGBITS then s
      else if name == SYSDIRS then
        s.(sysdirs := Some(Sysdirs(Read(s.data, sect.offset, sect.size), sect.offset, sect.size)))
      else if name == SYSDIRSLEN then s.(sysdirslen := Some(sect.offset))
      else if name == LDSOCACHE then
        var c := PatchPart(s.data, prefix, sect.offset, sect.size);
        s.(data := c.data, status := c.status)
      else if name == GCCRELOCPREFIX then
        var c := PatchSlots(s.data, prefix, sect.offset, sect.size);
        s.(data := c.data, status := c.status)
      else s
  }

  function ScanTo(d: seq<Byte>, h: Header, tab: seq<Byte>, prefix: seq<Byte>, n: nat): Scan {
    if n == 0 then Scan(d, None, None, Good)
    else
      var s := ScanTo(d, h, tab, prefix, n - 1);
      if s.status.Good? then SectionStep(s, h, tab, prefix, n - 1) else s
  }

  /** The two sections of the library directories, written back. */
  function WriteSysdirs(d: seq<Byte>, h: Header, prefix: seq<Byte>, s: Sysdirs, lenOff: nat): seq<Byte> {
    var e := Write(d, s.offset, NewSysdirs(prefix, s.text, s.size));
    Write(e, lenOff, Lengths(SubAll(prefix, Paths(s.text)), if h.wide then 8 else 4))
  }

  /** With `.sysdirs` but no `.sysdirslen`, a variable is used before it is set. */
  function ChangeDlSysdirs(d: seq<Byte>, h: Header, prefix: seq<Byte>): Change {
    match SectionAt(d, h, h.shstrndx)
    case None => Change(d, Raised)
    case Some(strings) =>
      var s := ScanTo(d, h, Read(d, strings.offset, strings.size), prefix, h.shnum);
      if !s.status.Good? || s.sysdirs.None? then Change(s.data, s.status)
      else if s.sysdirslen.None? then Change(s.data, Raised)
      else Change(WriteSysdirs(s.data, h, prefix, s.sysdirs.value, s.sysdirslen.value), Good)
  }

  /** One file of the list. A file of less than 64 bytes or of another kind is left alone. */
  function Relocate(d: seq<Byte>, prefix: seq<Byte>, dlPath: seq<Byte>): Change {
    if |d| < 64 then Change(d, Good)
    else
      match ParseElfHeader(Read(d, 0, 64))
      case None => Change(d, Good)
      case Some(h) =>
        var a := ChangeInterpreter(d, h, dlPath);
        if a.status.Raised? then a
        else
          var b := ChangeDlSysdirs(a.data, h, prefix);
          if b.status.Good? then Change(b.data, a.status) else b
  }
}
