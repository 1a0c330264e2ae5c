/** What relocating leaves alone in a file whose parts lie inside it: its size, and every byte outside the
    patched areas. */
module ElfLayout {
  import opened Bytes
  import opened ElfFile
  import opened Relocation
  import opened Wrappers

  /** `e` is `d` with changes between `off` and `off + size` only. */
  ghost predicate Changes(d: seq<Byte>, e: seq<Byte>, off: nat, size: nat) {
    && |e| == |d| && off + size <= |d|
    && forall p :: 0 <= p < |d| && !(off <= p < off + size) ==> e[p] == d[p]
  }

  /** The part holds what patching it again would put there. */
  ghost predicate Settled(prefix: seq<Byte>, d: seq<Byte>, off: nat, size: nat) {
    off + size <= |d| && Patched(prefix, d[off..off + size], size) == Some(d[off..off + size])
  }

  /** A part that fits is replaced by its patched form, which patching again leaves as it is. */
  lemma PartIsPatched(d: seq<Byte>, prefix: seq<Byte>, off: nat, size: nat)
    requires off + size <= |d|
    ensures var r := PatchPart(d, prefix, off, size);
            && Changes(d, r.data, off, size)
            && (r.status.Good? <==> Patched(prefix, d[off..off + size], size).Some?)
            && (r.status.Good? ==> Some(r.data[off..off + size]) == Patched(prefix, d[off..off + size], size))
            && (r.status.Good? && Plain(prefix) ==> Settled(prefix, r.data, off, size))
  {
    var part := Patched(prefix, d[off..off + size], size);
    if part.Some? {
      WriteInside(d, off, part.value);
      if Plain(prefix) { PatchTwice(prefix, d[off..off + size], size); }
    }
  }

  lemma SettledStays(prefix: seq<Byte>, d: seq<Byte>, off: nat, size: nat)
    requires Settled(prefix, d, off, size)
    ensures PatchPart(d, prefix, off, size) == Change(d, Good)
  {
    hide Patched;
    assert Write(d, off, d[off..off + size]) == d;
  }

  /** Slot `k` of a section at `off`, and whether the section holds all of it. */
  function SlotAt(off: nat, k: nat): nat { off + k * SLOT }
  predicate Full(size: nat, k: nat) { (k + 1) * SLOT <= size }

  lemma LaterSlot(off: nat, size: nat, k: nat)
    requires size >= SLOT
    ensures SlotAt(off, 0) == off && SlotAt(off, k + 1) == SlotAt(off + SLOT, k)
    ensures Full(size, 0) && (Full(size, k + 1) <==> Full(size - SLOT, k))
  {
  }

  ghost predicate SlotIsPatched(prefix: seq<Byte>, d: seq<Byte>, r: seq<Byte>, off: nat) {
    && off + SLOT <= |d| == |r|
    && Some(r[off..off + SLOT]) == Patched(prefix, d[off..off + SLOT], SLOT)
  }

  lemma NoSlots(size: nat)
    requires size < SLOT
    ensures forall k: nat :: !Full(size, k)
  {
  }

  lemma FirstSlot(d: seq<Byte>, prefix: seq<Byte>, off: nat, size: nat)
    ensures PatchSlots(d, prefix, off, size) ==
      if size < SLOT then Change(d, Good)
      else
        var c := PatchPart(d, prefix, off, SLOT);
        if c.status.Good? then PatchSlots(c.data, prefix, off + SLOT, size - SLOT) else c
  {
  }

  /** Every full slot holds its patched path, and nothing outside the section changes. */
  lemma {:induction false} SlotsArePatched(d: seq<Byte>, prefix: seq<Byte>, off: nat, size: nat)
    requires off + size <= |d|
    ensures var r := PatchSlots(d, prefix, off, size);
            && Changes(d, r.data, off, size)
            && (r.status.Good? ==> forall k: nat :: Full(size, k) ==>
                  SlotIsPatched(prefix, d, r.data, SlotAt(off, k)))
    decreases size
  {
    hide PatchPart, PatchSlots, Full, SlotAt, SlotIsPatched, Patched;
    FirstSlot(d, prefix, off, size);
    if size >= SLOT {
      PartIsPatched(d, prefix, off, SLOT);
      var c := PatchPart(d, prefix, off, SLOT);
      if c.status.Good? {
        SlotsArePatched(c.data, prefix, off + SLOT, size - SLOT);
        var r := PatchSlots(c.data, prefix, off + SLOT, size - SLOT);
        if r.status.Good? {
          AllSlotsPatched(prefix, d, c.data, r.data, off, size - SLOT);
        }
      }
    } else {
      NoSlots(size);
    }
  }

  lemma AllSlotsPatched(prefix: seq<Byte>, d: seq<Byte>, c: seq<Byte>, r: seq<Byte>, off: nat, rest: nat)
    requires off + SLOT + rest <= |d|
    requires Changes(d, c, off, SLOT) && Some(c[off..off + SLOT]) == Patched(prefix, d[off..off + SLOT], SLOT)
    requires Changes(c, r, off + SLOT, rest)
    requires forall k: nat :: Full(rest, k) ==> SlotIsPatched(prefix, c, r, SlotAt(off + SLOT, k))
    ensures forall k: nat :: Full(SLOT + rest, k) ==> SlotIsPatched(prefix, d, r, SlotAt(off, k))
  {
    assert SlotIsPatched(prefix, d, c, off);
    hide Patched, Changes, SlotIsPatched, SlotAt, Full;
    forall k: nat | Full(SLOT + rest, k) ensures SlotIsPatched(prefix, d, r, SlotAt(off, k)) {
      if k > 0 { LaterSlot(off, SLOT + rest, k - 1); }
      SlotStaysPatched(prefix, d, c, r, off, SLOT + rest, k);
    }
  }

  lemma SlotStaysPatched(prefix: seq<Byte>, d: seq<Byte>, c: seq<Byte>, r: seq<Byte>, off: nat, size: nat, k: nat)
    requires Full(size, k) && off + size <= |d|
    requires Changes(d, c, off, SLOT) && SlotIsPatched(prefix, d, c, off)
    requires Changes(c, r, off + SLOT, size - SLOT)
    requires k > 0 ==> SlotIsPatched(prefix, c, r, SlotAt(off + SLOT, k - 1))
    ensures SlotIsPatched(prefix, d, r, SlotAt(off, k))
  {
    hide Patched;
    var at := SlotAt(off, k);
    if k == 0 {
      assert r[at..at + SLOT] == c[at..at + SLOT];
    } else {
      assert at == SlotAt(off + SLOT, k - 1);
      assert c[at..at + SLOT] == d[at..at + SLOT];
    }
  }

  lemma {:induction false} SettledSlotsStay(prefix: seq<Byte>, d: seq<Byte>, off: nat, size: nat)
    requires off + size <= |d|
    requires forall k: nat :: Full(size, k) ==> Settled(prefix, d, SlotAt(off, k), SLOT)
    ensures PatchSlots(d, prefix, off, size) == Change(d, Good)
    decreases size
  {
    hide PatchPart, PatchSlots, Settled, Full, SlotAt;
    FirstSlot(d, prefix, off, size);
    if size >= SLOT {
      LaterSlot(off, size, 0);
      SettledStays(prefix, d, off, SLOT);
      var rest := size - SLOT;
      forall k: nat | Full(rest, k) ensures Settled(prefix, d, SlotAt(off + SLOT, k), SLOT) {
        LaterSlot(off, size, k);
      }
      SettledSlotsStay(prefix, d, off + SLOT, rest);
    }
  }

  /** Patching the slots again changes nothing. */
  lemma SlotsTwice(d: seq<Byte>, prefix: seq<Byte>, off: nat, size: nat)
    requires Plain(prefix) && off + size <= |d| && PatchSlots(d, prefix, off, size).status.Good?
    ensures var r := PatchSlots(d, prefix, off, size).data;
            && |r| == |d|
            && (forall k: nat :: Full(size, k) ==> Settled(prefix, r, SlotAt(off, k), SLOT))
            && PatchSlots(r, prefix, off, size) == Change(r, Good)
  {
    SlotsArePatched(d, prefix, off, size);
    var r := PatchSlots(d, prefix, off, size).data;
    forall k: nat | Full(size, k) ensures Settled(prefix, r, SlotAt(off, k), SLOT) {
      var at := SlotAt(off, k);
      assert SlotIsPatched(prefix, d, r, at);
      PatchTwice(prefix, d[at..at + SLOT], SLOT);
    }
    SettledSlotsStay(prefix, r, off, size);
  }
}
