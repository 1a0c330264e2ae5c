/** ELF headers written field by field, for both widths and both byte orders: the parser inverts the
    writer, and the writer the parser. Fields that relocation does not look at may hold anything. */
module ElfHeaders {
  import opened Bytes
  import opened ElfFile
  import opened Relocation
  import opened Wrappers

  /** The `w` bytes of a number in the file's byte order. */
  function Put(big: bool, n: nat, w: nat): (b: seq<Byte>)
    ensures |b| == w
  {
    if w == 0 then []
    else if big then Put(big, n / 256, w - 1) + [(n % 256) as Byte]
    else [(n % 256) as Byte] + Put(big, n / 256, w - 1)
  }

  lemma {:induction false} PutIsRead(big: bool, n: nat, w: nat)
    requires n < Power(w)
    ensures if big then BigEndian(Put(big, n, w)) == n else Unpack(Put(big, n, w)) == n
  {
    if w > 0 { PutIsRead(big, n / 256, w - 1); }
  }

  lemma {:induction false} ReadIsPut(big: bool, b: seq<Byte>)
    ensures var n := if big then BigEndian(b) else Unpack(b);
            n < Power(|b|) && Put(big, n, |b|) == b
  {
    if b != [] {
      var last := |b| - 1;
      if big {
        ReadIsPut(big, b[..last]);
        Digits(BigEndian(b[..last]), b[last], Power(last));
        assert b == b[..last] + [b[last]];
      } else {
        ReadIsPut(big, b[1..]);
        Digits(Unpack(b[1..]), b[0], Power(last));
        assert b == [b[0]] + b[1..];
      }
    }
  }

  lemma Digits(n: nat, d: Byte, bound: nat)
    requires n < bound
    ensures var m := 256 * n + d as nat; m / 256 == n && m % 256 == d as nat && m < 256 * bound
  {
  }

  /** A field holds a number exactly if its bytes are those of the number. */
  lemma FieldIff(big: bool, b: seq<Byte>, at: nat, w: nat, n: nat)
    requires at + w <= |b|
    ensures Field(big, b, at, w) == n <==> n < Power(w) && b[at..at + w] == Put(big, n, w)
  {
    ReadIsPut(big, b[at..at + w]);
    if n < Power(w) { PutIsRead(big, n, w); }
  }

  // ---- the file header ----

  /** The bytes of the header that are not looked at: the magic number after its first byte, the
      identification after the byte order, type to entry point, the flags and the size, and in a
      32-bit file what comes after the header. */
  datatype HeaderRest = HeaderRest(magic: seq<Byte>, order: Byte, ident: seq<Byte>, start: seq<Byte>, flags: seq<Byte>,
                                   after: seq<Byte>)
  {
    predicate For(h: Header) {
      && |magic| == 3 && (order == 1 <==> !h.big) && |ident| == 10 && |start| == (if h.wide then 16 else 12)
      && |flags| == 6 && |after| == if h.wide then 0 else 12
    }
  }

  function WordSize(wide: bool): nat { if wide then 8 else 4 }

  /** Every number has room in its field. */
  predicate InRange(h: Header) {
    && h.phoff < Power(WordSize(h.wide)) && h.shoff < Power(WordSize(h.wide)) && h.phentsize < Power(2) && h.phnum < Power(2)
    && h.shentsize < Power(2) && h.shnum < Power(2) && h.shstrndx < Power(2)
  }

  function HeaderBytes(h: Header, x: HeaderRest): (b: seq<Byte>)
    requires x.For(h)
    ensures |b| == 64
  {
    [0x7f] + x.magic + [if h.wide then 2 else 1] + [x.order] + x.ident + x.start
    + Put(h.big, h.phoff, WordSize(h.wide)) + Put(h.big, h.shoff, WordSize(h.wide)) + x.flags
    + Put(h.big, h.phentsize, 2) + Put(h.big, h.phnum, 2) + Put(h.big, h.shentsize, 2) + Put(h.big, h.shnum, 2)
    + Put(h.big, h.shstrndx, 2) + x.after
  }

  lemma HeaderFields(h: Header, x: HeaderRest)
    requires x.For(h)
    ensures var b, w := HeaderBytes(h, x), WordSize(h.wide);
            var at := if h.wide then 32 else 28;
            && b[0] == 0x7f && b[4] == (if h.wide then 2 else 1) && b[5] == x.order
            && b[at..at + w] == Put(h.big, h.phoff, w) && b[at + w..at + 2 * w] == Put(h.big, h.shoff, w)
  {
    hide Put;
    var b := HeaderBytes(h, x);
    if h.wide {
      assert b[32..40] == Put(h.big, h.phoff, 8) && b[40..48] == Put(h.big, h.shoff, 8);
    } else {
      assert b[28..32] == Put(h.big, h.phoff, 4) && b[32..36] == Put(h.big, h.shoff, 4);
    }
  }

  lemma HeaderCounts(h: Header, x: HeaderRest)
    requires x.For(h)
    ensures var b := HeaderBytes(h, x);
            var at := if h.wide then 54 else 42;
            && b[at..at + 2] == Put(h.big, h.phentsize, 2) && b[at + 2..at + 4] == Put(h.big, h.phnum, 2)
            && b[at + 4..at + 6] == Put(h.big, h.shentsize, 2) && b[at + 6..at + 8] == Put(h.big, h.shnum, 2)
            && b[at + 8..at + 10] == Put(h.big, h.shstrndx, 2)
  {
    hide Put;
    var b := HeaderBytes(h, x);
    if h.wide {
      assert b[54..56] == Put(h.big, h.phentsize, 2) && b[56..58] == Put(h.big, h.phnum, 2);
      assert b[58..60] == Put(h.big, h.shentsize, 2) && b[60..62] == Put(h.big, h.shnum, 2);
      assert b[62..64] == Put(h.big, h.shstrndx, 2);
    } else {
      assert b[42..44] == Put(h.big, h.phentsize, 2) && b[44..46] == Put(h.big, h.phnum, 2);
      assert b[46..48] == Put(h.big, h.shentsize, 2) && b[48..50] == Put(h.big, h.shnum, 2);
      assert b[50..52] == Put(h.big, h.shstrndx, 2);
    }
  }

  /** Every header is read as it was written. */
  lemma HeaderRoundTrip(h: Header, x: HeaderRest)
    requires InRange(h) && x.For(h)
    ensures ParseElfHeader(HeaderBytes(h, x)) == Some(h)
  {
    HeaderFields(h, x);
    HeaderCounts(h, x);
    hide HeaderBytes, Put, Field, Power;
    var b, w := HeaderBytes(h, x), WordSize(h.wide);
    var at, from := if h.wide then 32 else 28, if h.wide then 54 else 42;
    FieldIff(h.big, b, at, w, h.phoff);
    FieldIff(h.big, b, at + w, w, h.shoff);
    FieldIff(h.big, b, from, 2, h.phentsize);
    FieldIff(h.big, b, from + 2, 2, h.phnum);
    FieldIff(h.big, b, from + 4, 2, h.shentsize);
    FieldIff(h.big, b, from + 6, 2, h.shnum);
    FieldIff(h.big, b, from + 8, 2, h.shstrndx);
  }

  function RestOf(b: seq<Byte>, wide: bool): HeaderRest
    requires |b| == 64
  {
    HeaderRest(b[1..4], b[5], b[6..16], b[16..if wide then 32 else 28], if wide then b[48..54] else b[36..42],
               if wide then [] else b[52..])
  }

  /** Whatever is accepted as a header is what was written for it. */
  lemma HeaderWasWritten(b: seq<Byte>, h: Header)
    requires |b| == 64 && ParseElfHeader(b) == Some(h)
    ensures InRange(h) && RestOf(b, h.wide).For(h) && HeaderBytes(h, RestOf(b, h.wide)) == b
  {
    hide Field, Put, Power, HeaderBytes;
    var x, w := RestOf(b, h.wide), WordSize(h.wide);
    var at, from := if h.wide then 32 else 28, if h.wide then 54 else 42;
    FieldIff(h.big, b, at, w, h.phoff);
    FieldIff(h.big, b, at + w, w, h.shoff);
    FieldIff(h.big, b, from, 2, h.phentsize);
    FieldIff(h.big, b, from + 2, 2, h.phnum);
    FieldIff(h.big, b, from + 4, 2, h.shentsize);
    FieldIff(h.big, b, from + 6, 2, h.shnum);
    FieldIff(h.big, b, from + 8, 2, h.shstrndx);
    HeaderFields(h, x);
    HeaderCounts(h, x);
    SameHeader(b, h, x);
  }

  lemma SameHeader(b: seq<Byte>, h: Header, x: HeaderRest)
    requires |b| == 64 && x == RestOf(b, h.wide) && x.For(h) && b[0] == 0x7f && b[4] == if h.wide then 2 else 1
    requires var at, w := if h.wide then 32 else 28, WordSize(h.wide);
             b[at..at + w] == Put(h.big, h.phoff, w) && b[at + w..at + 2 * w] == Put(h.big, h.shoff, w)
    requires var at := if h.wide then 54 else 42;
             && b[at..at + 2] == Put(h.big, h.phentsize, 2) && b[at + 2..at + 4] == Put(h.big, h.phnum, 2)
             && b[at + 4..at + 6] == Put(h.big, h.shentsize, 2) && b[at + 6..at + 8] == Put(h.big, h.shnum, 2)
             && b[at + 8..at + 10] == Put(h.big, h.shstrndx, 2)
    ensures HeaderBytes(h, x) == b
  {
    hide Put;
  }

  // ---- program and section headers ----

  /** The bytes of a program header that are not looked at. */
  datatype SegmentRest = SegmentRest(flags: seq<Byte>, addresses: seq<Byte>, after: seq<Byte>) {
    predicate For(h: Header) {
      && |flags| == (if h.wide then 4 else 0) && |addresses| == (if h.wide then 16 else 8)
      && |after| == if h.wide then 16 else 12
    }
  }

  function SegmentBytes(h: Header, s: Segment, x: SegmentRest): (b: seq<Byte>)
    requires x.For(h)
    ensures |b| == if h.wide then 56 else 32
  {
    Put(h.big, s.kind, 4) + x.flags + Put(h.big, s.offset, WordSize(h.wide)) + x.addresses
    + Put(h.big, s.filesz, WordSize(h.wide)) + x.after
  }

  /** The parser reads a program header exactly if its bytes are the ones written for it. */
  lemma SegmentIff(h: Header, b: seq<Byte>, s: Segment)
    ensures UnpackSegment(h, b) == Some(s) <==>
      && s.kind < Power(4) && s.offset < Power(WordSize(h.wide)) && s.filesz < Power(WordSize(h.wide))
      && exists x: SegmentRest :: x.For(h) && SegmentBytes(h, s, x) == b
  {
    hide Put, Field, Power;
    var w := WordSize(h.wide);
    if |b| == if h.wide then 56 else 32 {
      FieldIff(h.big, b, 0, 4, s.kind);
      FieldIff(h.big, b, if h.wide then 8 else 4, w, s.offset);
      FieldIff(h.big, b, if h.wide then 32 else 16, w, s.filesz);
      SegmentParts(h, b, s);
    }
  }

  lemma SegmentParts(h: Header, b: seq<Byte>, s: Segment)
    requires |b| == if h.wide then 56 else 32
    ensures var off, size, w := if h.wide then 8 else 4, if h.wide then 32 else 16, WordSize(h.wide);
            (exists x: SegmentRest :: x.For(h) && SegmentBytes(h, s, x) == b) <==>
              && b[..4] == Put(h.big, s.kind, 4) && b[off..off + w] == Put(h.big, s.offset, w)
              && b[size..size + w] == Put(h.big, s.filesz, w)
  {
    hide Put;
    var off, size, w := if h.wide then 8 else 4, if h.wide then 32 else 16, WordSize(h.wide);
    if b[..4] == Put(h.big, s.kind, 4) && b[off..off + w] == Put(h.big, s.offset, w)
       && b[size..size + w] == Put(h.big, s.filesz, w) {
      var x := SegmentRest(b[4..off], b[off + w..size], b[size + w..]);
      assert x.For(h) && SegmentBytes(h, s, x) == b;
    }
    if x: SegmentRest :| x.For(h) && SegmentBytes(h, s, x) == b { SegmentFields(h, s, x); }
  }

  lemma SegmentFields(h: Header, s: Segment, x: SegmentRest)
    requires x.For(h)
    ensures var b, off, size, w :=
              SegmentBytes(h, s, x), if h.wide then 8 else 4, if h.wide then 32 else 16, WordSize(h.wide);
            && b[..4] == Put(h.big, s.kind, 4) && b[off..off + w] == Put(h.big, s.offset, w)
            && b[size..size + w] == Put(h.big, s.filesz, w)
  {
    hide Put;
  }

  /** The bytes of a section header that are not looked at. */
  datatype SectionRest = SectionRest(flags: seq<Byte>, after: seq<Byte>) {
    predicate For(h: Header) { |flags| == (if h.wide then 16 else 8) && |after| == if h.wide then 24 else 16 }
  }

  function SectionBytes(h: Header, s: Section, x: SectionRest): (b: seq<Byte>)
    requires x.For(h)
    ensures |b| == if h.wide then 64 else 40
  {
    Put(h.big, s.name, 4) + Put(h.big, s.kind, 4) + x.flags + Put(h.big, s.offset, WordSize(h.wide))
    + Put(h.big, s.size, WordSize(h.wide)) + x.after
  }

  lemma SectionIff(h: Header, b: seq<Byte>, s: Section)
    ensures UnpackSection(h, b) == Some(s) <==>
      && s.name < Power(4) && s.kind < Power(4) && s.offset < Power(WordSize(h.wide)) && s.size < Power(WordSize(h.wide))
      && exists x: SectionRest :: x.For(h) && SectionBytes(h, s, x) == b
  {
    hide Put, Field, Power;
    var w := WordSize(h.wide);
    var off := if h.wide then 24 else 16;
    if |b| == if h.wide then 64 else 40 {
      FieldIff(h.big, b, 0, 4, s.name);
      FieldIff(h.big, b, 4, 4, s.kind);
      FieldIff(h.big, b, off, w, s.offset);
      FieldIff(h.big, b, off + w, w, s.size);
      SectionParts(h, b, s);
    }
  }

  lemma SectionParts(h: Header, b: seq<Byte>, s: Section)
    requires |b| == if h.wide then 64 else 40
    ensures var off, w := if h.wide then 24 else 16, WordSize(h.wide);
            (exists x: SectionRest :: x.For(h) && SectionBytes(h, s, x) == b) <==>
              && b[..4] == Put(h.big, s.name, 4) && b[4..8] == Put(h.big, s.kind, 4)
              && b[off..off + w] == Put(h.big, s.offset, w) && b[off + w..off + 2 * w] == Put(h.big, s.size, w)
  {
    hide Put;
    var off, w := if h.wide then 24 else 16, WordSize(h.wide);
    if b[..4] == Put(h.big, s.name, 4) && b[4..8] == Put(h.big, s.kind, 4)
       && b[off..off + w] == Put(h.big, s.offset, w) && b[off + w..off + 2 * w] == Put(h.big, s.size, w) {
      var x := SectionRest(b[8..off], b[off + 2 * w..]);
      assert x.For(h) && SectionBytes(h, s, x) == b;
    }
    if x: SectionRest :| x.For(h) && SectionBytes(h, s, x) == b { SectionFields(h, s, x); }
  }

  lemma SectionFields(h: Header, s: Section, x: SectionRest)
    requires x.For(h)
    ensures var b, off, w := SectionBytes(h, s, x), if h.wide then 24 else 16, WordSize(h.wide);
            && b[..4] == Put(h.big, s.name, 4) && b[4..8] == Put(h.big, s.kind, 4)
            && b[off..off + w] == Put(h.big, s.offset, w) && b[off + w..off + 2 * w] == Put(h.big, s.size, w)
  {
    hide Put;
  }
}
