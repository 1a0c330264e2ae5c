/** poky/bitbake/lib/pyinotify.py, `Notifier.read_events` and `process_events`: decoding the kernel's
    records (struct format `iIII`, little-endian, and a NUL-padded name) and queueing them. */
module EventRecords {
  import opened Lists
  import opened Bytes
  import opened EventText

  /** An event as the kernel writes it, with the number of NULs that pad its name. */
  datatype Record = Record(event: RawEvent, pad: nat)

  const WORD := 0x1_0000_0000
  const HEADER: nat := 16

  // ---- words ----

  function EncodeWord(n: int): (s: seq<Byte>)
    requires 0 <= n < WORD
    ensures |s| == 4
  {
    [(n % 256) as Byte, (n / 256 % 256) as Byte, (n / 256 / 256 % 256) as Byte, (n / 256 / 256 / 256) as Byte]
  }

  function DecodeWord(s: seq<Byte>): (n: int)
    requires |s| == 4
    ensures 0 <= n < WORD
  {
    s[0] as int + 256 * (s[1] as int + 256 * (s[2] as int + 256 * s[3] as int))
  }

  function Signed(n: int): int { if n < WORD / 2 then n else n - WORD }

  function Unsigned(n: int): int { if n < 0 then n + WORD else n }

  lemma WordRoundTrip(n: int)
    requires 0 <= n < WORD
    ensures DecodeWord(EncodeWord(n)) == n
  {
    assert n == 256 * (n / 256) + n % 256;
    var m := n / 256;
    assert m == 256 * (m / 256) + m % 256;
    var k := m / 256;
    assert k == 256 * (k / 256) + k % 256;
  }

  lemma WordBytes(s: seq<Byte>)
    requires |s| == 4
    ensures EncodeWord(DecodeWord(s)) == s
  {
    var k := s[2] as int + 256 * s[3] as int;
    var m := s[1] as int + 256 * k;
    var n := s[0] as int + 256 * m;
    assert n % 256 == s[0] as int && n / 256 == m;
    assert m % 256 == s[1] as int && m / 256 == k;
    assert k % 256 == s[2] as int && k / 256 == s[3] as int;
  }

  // ---- records ----

  ghost predicate Valid(r: Record) {
    && -WORD / 2 <= r.event.wd < WORD / 2 && 0 <= r.event.mask < WORD && 0 <= r.event.cookie < WORD
    && Stripped(r.event.name) && |r.event.name| + r.pad < WORD
  }

  function Encode(r: Record): seq<Byte>
    requires Valid(r)
  {
    EncodeWord(Unsigned(r.event.wd)) + EncodeWord(r.event.mask) + EncodeWord(r.event.cookie)
    + EncodeWord(|r.event.name| + r.pad) + (r.event.name + Zeros(r.pad))
  }

  function EncodeAll(records: seq<Record>): seq<Byte>
    requires forall r :: r in records ==> Valid(r)
  {
    if records == [] then [] else Encode(records[0]) + EncodeAll(records[1..])
  }

  /** The first record of the bytes, and its length. */
  function DecodeFirst(bytes: seq<Byte>): (Record, nat)
    requires HasFirst(bytes)
  {
    var n := DecodeWord(bytes[12..16]);
    var name := bytes[HEADER..HEADER + n];
    var event := RawEvent(Signed(DecodeWord(bytes[0..4])), DecodeWord(bytes[4..8]), DecodeWord(bytes[8..12]), Strip(name));
    (Record(event, n - |Strip(name)|), HEADER + n)
  }

  /** The bytes begin with a whole record. */
  predicate HasFirst(bytes: seq<Byte>) {
    |bytes| >= HEADER && |bytes| >= HEADER + DecodeWord(bytes[12..16])
  }

  datatype Decoded = Decoded(records: seq<Record>, ok: bool)

  /** All records of a queue of `size` bytes, up to the first that the bytes read do not hold in
      full; there unpacking raises. */
  function Decode(bytes: seq<Byte>, size: int): Decoded
    decreases |bytes|
  {
    if size <= 0 then Decoded([], true)
    else if !HasFirst(bytes) then Decoded([], false)
    else
      var (r, n) := DecodeFirst(bytes);
      var rest := Decode(bytes[n..], size - n);
      Decoded([r] + rest.records, rest.ok)
  }

  lemma DecodesOne(r: Record, more: seq<Byte>)
    requires Valid(r)
    ensures var bytes, n := Encode(r) + more, |r.event.name| + r.pad;
            && |Encode(r)| == HEADER + n
            && HasFirst(bytes) && DecodeFirst(bytes) == (r, HEADER + n)
            && bytes[HEADER + n..] == more
  {
    hide EncodeWord, DecodeWord, Strip;
    var bytes, n := Encode(r) + more, |r.event.name| + r.pad;
    WordRoundTrip(Unsigned(r.event.wd));
    WordRoundTrip(r.event.mask);
    WordRoundTrip(r.event.cookie);
    WordRoundTrip(n);
    assert bytes[0..4] == EncodeWord(Unsigned(r.event.wd));
    assert bytes[4..8] == EncodeWord(r.event.mask);
    assert bytes[8..12] == EncodeWord(r.event.cookie);
    assert bytes[12..16] == EncodeWord(n);
    assert bytes[HEADER..HEADER + n] == r.event.name + Zeros(r.pad);
    StripUnpads(r.event.name, r.pad);
  }

  /** Decoding inverts encoding: every list of records comes back, and the buffer is used up. */
  lemma {:induction false} DecodeEncode(records: seq<Record>)
    requires forall r :: r in records ==> Valid(r)
    ensures Decode(EncodeAll(records), |EncodeAll(records)|) == Decoded(records, true)
  {
    hide Encode, DecodeFirst, HasFirst, Valid;
    if records != [] {
      DecodesOne(records[0], EncodeAll(records[1..]));
      DecodeEncode(records[1..]);
      assert records == [records[0]] + records[1..];
    }
  }

  lemma EncodesFirst(bytes: seq<Byte>)
    requires HasFirst(bytes)
    ensures var (r, n) := DecodeFirst(bytes);
            HEADER <= n <= |bytes| && Valid(r) && Encode(r) == bytes[..n]
  {
    hide EncodeWord, DecodeWord, Strip;
    var (r, n) := DecodeFirst(bytes);
    var name := bytes[HEADER..n];
    StripPads(name);
    WordBytes(bytes[0..4]);
    WordBytes(bytes[4..8]);
    WordBytes(bytes[8..12]);
    WordBytes(bytes[12..16]);
    assert bytes[..n] == bytes[0..4] + bytes[4..8] + bytes[8..12] + bytes[12..16] + name;
  }

  /** ... and the other way round: a buffer that decodes without an error is an encoding, of exactly
      the records found; nothing is skipped and nothing invented. */
  lemma {:induction false} EncodeDecode(bytes: seq<Byte>, size: int)
    requires Decode(bytes, size).ok && size == |bytes|
    ensures var records := Decode(bytes, size).records;
            (forall r :: r in records ==> Valid(r)) && EncodeAll(records) == bytes
    decreases |bytes|
  {
    if bytes != [] {
      var n := DecodeFirst(bytes).1;
      EncodesFirst(bytes);
      EncodeDecode(bytes[n..], size - n);
      EncodeMore(bytes, n, DecodeFirst(bytes).0, Decode(bytes[n..], size - n).records);
    }
  }

  lemma EncodeMore(bytes: seq<Byte>, n: nat, r: Record, rest: seq<Record>)
    requires Valid(r) && forall x :: x in rest ==> Valid(x)
    requires n <= |bytes| && Encode(r) == bytes[..n] && EncodeAll(rest) == bytes[n..]
    ensures forall x :: x in [r] + rest ==> Valid(x)
    ensures EncodeAll([r] + rest) == bytes
  {
  }

  // ---- the event queue ----

  function Keys(events: seq<RawEvent>): set<seq<Byte>> { set e | e in events :: Key(e) }

  /** The events that are not yet known, each only the first time. */
  function Fresh(events: seq<RawEvent>, known: set<seq<Byte>>): seq<RawEvent> {
    if events == [] then []
    else
      var front, last := events[..|events| - 1], events[|events| - 1];
      if Key(last) in known + Keys(front) then Fresh(front, known) else Fresh(front, known) + [last]
  }

  function EventsOf(records: seq<Record>): seq<RawEvent> {
    if records == [] then [] else EventsOf(records[..|records| - 1]) + [records[|records| - 1].event]
  }

  class Notifier {
    const threshold: int
    var coalesce: bool
    var eventq: seq<RawEvent>
    var eventset: set<seq<Byte>>

    constructor (threshold: int)
      ensures this.threshold == threshold && !coalesce && eventq == [] && eventset == {}
    {
      this.threshold := threshold;
      coalesce, eventq, eventset := false, [], {};
    }

    method CoalesceEvents(on: bool)
      modifies this
      ensures coalesce == on && eventq == old(eventq)
      ensures eventset == if on then old(eventset) else {}
    {
      coalesce := on;
      if !on {
        eventset := {};
      }
    }

    /** `r` is what reading `queueSize` bytes from the device gave. */
    method ReadEvents(queueSize: int, r: seq<Byte>) returns (ok: bool)
      requires |r| <= queueSize
      modifies `eventq, `eventset
      ensures queueSize < threshold ==> ok && eventq == old(eventq) && eventset == old(eventset)
      ensures queueSize >= threshold ==>
        var d := Decode(r, queueSize);
        && ok == d.ok
        && eventq == old(eventq) + Accepted(coalesce, EventsOf(d.records), old(eventset))
        && eventset == KnownAfter(coalesce, EventsOf(d.records), old(eventset))
    {
      hide DecodeFirst, DecodeWord, Encode, Valid, Decode;
      if queueSize < threshold {
        return true;
      }
      var rsum := 0;
      ghost var records: seq<Record> := [];
      ParsedNone(r, queueSize);
      while rsum < queueSize
        invariant 0 <= rsum <= |r| && Parsed(r, queueSize, rsum, records)
        invariant eventq == old(eventq) + Accepted(coalesce, EventsOf(records), old(eventset))
        invariant eventset == KnownAfter(coalesce, EventsOf(records), old(eventset))
        decreases queueSize - rsum
      {
        var buffer := r[rsum..];
        if !HasFirst(buffer) {
          ParsedStops(r, queueSize, rsum, records);
          return false;
        }
        var (record, n) := DecodeFirst(buffer);
        ParsedMore(r, queueSize, rsum, records);
        EncodesFirst(buffer);
        Enqueue(record.event);
        OneMoreEvent(records, record, coalesce, old(eventset), old(eventq));
        records := records + [record];
        rsum := rsum + n;
      }
      ParsedStops(r, queueSize, rsum, records);
      ok := true;
    }

    /** The body of the loop after decoding. */
    method Enqueue(rawevent: RawEvent)
      modifies `eventq, `eventset
      ensures eventq == old(eventq) + if coalesce && Key(rawevent) in old(eventset) then [] else [rawevent]
      ensures eventset == if coalesce then old(eventset) + {Key(rawevent)} else old(eventset)
    {
      if coalesce {
        if Key(rawevent) !in eventset {
          eventset := eventset + {Key(rawevent)};
          eventq := eventq + [rawevent];
        }
      } else {
        eventq := eventq + [rawevent];
      }
    }

    /** The queue is emptied; afterwards any event is accepted again. `processed` is what was handled. */
    method ProcessEvents() returns (processed: seq<RawEvent>)
      modifies `eventq, `eventset
      ensures processed == old(eventq) && eventq == []
      ensures eventset == if coalesce then {} else old(eventset)
    {
      processed := [];
      while eventq != []
        invariant processed + eventq == old(eventq) && eventset == old(eventset)
        decreases |eventq|
      {
        processed := processed + [eventq[0]];
        eventq := eventq[1..];
      }
      if coalesce {
        eventset := {};
      }
    }
  }

  /** What a read adds to the queue, and to the set of known events. */
  function Accepted(coalesce: bool, events: seq<RawEvent>, known: set<seq<Byte>>): seq<RawEvent> {
    if coalesce then Fresh(events, known) else events
  }

  function KnownAfter(coalesce: bool, events: seq<RawEvent>, known: set<seq<Byte>>): set<seq<Byte>> {
    if coalesce then known + Keys(events) else known
  }

  /** The first `rsum` bytes have been decoded into `records`. */
  ghost predicate Parsed(r: seq<Byte>, size: int, rsum: nat, records: seq<Record>)
    requires rsum <= |r|
  {
    var rest := Decode(r[rsum..], size - rsum);
    Decode(r, size) == Decoded(records + rest.records, rest.ok)
  }

  lemma ParsedNone(r: seq<Byte>, size: int)
    ensures Parsed(r, size, 0, [])
  {
  }

  lemma ParsedMore(r: seq<Byte>, size: int, rsum: nat, records: seq<Record>)
    requires rsum <= |r| && rsum < size && Parsed(r, size, rsum, records) && HasFirst(r[rsum..])
    ensures var (record, n) := DecodeFirst(r[rsum..]);
            rsum + n <= |r| && Parsed(r, size, rsum + n, records + [record])
  {
    EncodesFirst(r[rsum..]);
    hide DecodeFirst, DecodeWord, Encode, Valid;
    var (record, n) := DecodeFirst(r[rsum..]);
    assert r[rsum..][n..] == r[rsum + n..];
    var rest := Decode(r[rsum + n..], size - rsum - n);
    assert Decode(r[rsum..], size - rsum) == Decoded([record] + rest.records, rest.ok);
    AppendAssociates(records, [record], rest.records);
  }

  lemma ParsedStops(r: seq<Byte>, size: int, rsum: nat, records: seq<Record>)
    requires rsum <= |r| && Parsed(r, size, rsum, records) && (rsum >= size || !HasFirst(r[rsum..]))
    ensures Decode(r, size) == Decoded(records, rsum >= size)
  {
  }

  lemma OneMoreEvent(records: seq<Record>, record: Record, coalesce: bool, known: set<seq<Byte>>, q: seq<RawEvent>)
    ensures var events, e := EventsOf(records), record.event;
            var all := EventsOf(records + [record]);
            && q + Accepted(coalesce, all, known) == q + Accepted(coalesce, events, known)
                 + (if coalesce && Key(e) in KnownAfter(coalesce, events, known) then [] else [e])
            && KnownAfter(coalesce, all, known) ==
                 if coalesce then KnownAfter(coalesce, events, known) + {Key(e)} else KnownAfter(coalesce, events, known)
  {
    hide Key, Fresh, Keys;
    var events, e := EventsOf(records), record.event;
    assert (records + [record])[..|records|] == records;
    KeysGrow(events, e);
    FreshGrows(events, e, known);
    AppendAssociates(q, Accepted(coalesce, events, known),
                     if coalesce && Key(e) in KnownAfter(coalesce, events, known) then [] else [e]);
    assert known + Keys(events + [e]) == known + Keys(events) + {Key(e)};
  }

  lemma FreshGrows(events: seq<RawEvent>, e: RawEvent, known: set<seq<Byte>>)
    ensures Fresh(events + [e], known) == Fresh(events, known) + if Key(e) in known + Keys(events) then [] else [e]
  {
  }

  lemma KeysGrow(events: seq<RawEvent>, e: RawEvent)
    ensures Keys(events + [e]) == Keys(events) + {Key(e)}
  {
  }

  /** An event gets through exactly if nothing known and nothing before it looks the same. */
  ghost predicate IsFirst(events: seq<RawEvent>, known: set<seq<Byte>>, i: nat)
    requires i < |events|
  {
    Key(events[i]) !in known && forall j :: 0 <= j < i ==> Key(events[j]) != Key(events[i])
  }

  /** The positions of the events that get through, in order. */
  ghost function Firsts(events: seq<RawEvent>, known: set<seq<Byte>>, n: nat): (p: seq<nat>)
    requires n <= |events|
    ensures forall k :: 0 <= k < |p| ==> p[k] < n
  {
    if n == 0 then []
    else if IsFirst(events, known, n - 1) then Firsts(events, known, n - 1) + [n - 1]
    else Firsts(events, known, n - 1)
  }

  lemma {:induction false} FirstsAre(events: seq<RawEvent>, known: set<seq<Byte>>, n: nat)
    requires n <= |events|
    ensures var p := Firsts(events, known, n);
            && (forall a, b :: 0 <= a < b < |p| ==> p[a] < p[b])
            && forall i :: 0 <= i < n ==> (i in p <==> IsFirst(events, known, i))
  {
    hide Key;
    if n > 0 {
      FirstsAre(events, known, n - 1);
    }
  }

  function Pick(events: seq<RawEvent>, p: seq<nat>): seq<RawEvent>
    requires forall k :: 0 <= k < |p| ==> p[k] < |events|
  {
    seq(|p|, k requires 0 <= k < |p| => events[p[k]])
  }

  /** Coalescing keeps exactly the first occurrences, in their order (`FirstsAre` says which). */
  lemma {:induction false} FreshAreFirsts(events: seq<RawEvent>, known: set<seq<Byte>>, n: nat)
    requires n <= |events|
    ensures Fresh(events[..n], known) == Pick(events, Firsts(events, known, n))
  {
    hide Key, Keys;
    if n > 0 {
      FreshAreFirsts(events, known, n - 1);
      PrefixGrows(events, n - 1);
      FreshGrows(events[..n - 1], events[n - 1], known);
      KnownBefore(events, known, n - 1);
      PickGrows(events, Firsts(events, known, n - 1), n - 1);
    }
  }

  lemma PickGrows(events: seq<RawEvent>, p: seq<nat>, n: nat)
    requires n < |events| && forall k :: 0 <= k < |p| ==> p[k] < |events|
    ensures Pick(events, p + [n]) == Pick(events, p) + [events[n]]
  {
  }

  lemma KnownBefore(events: seq<RawEvent>, known: set<seq<Byte>>, i: nat)
    requires i < |events|
    ensures Key(events[i]) in known + Keys(events[..i]) <==> !IsFirst(events, known, i)
  {
  }

  /** Reads between two rounds of processing act as one read of all their events. */
  lemma {:induction false} ReadsAddUp(first: seq<RawEvent>, second: seq<RawEvent>, known: set<seq<Byte>>)
    ensures Fresh(first + second, known) == Fresh(first, known) + Fresh(second, known + Keys(first))
    ensures Keys(first + second) == Keys(first) + Keys(second)
  {
    hide Key;
    if second == [] {
      assert first + second == first;
    } else {
      hide Fresh, Keys;
      var front, last := second[..|second| - 1], second[|second| - 1];
      ReadsAddUp(first, front, known);
      AppendAssociates(first, front, [last]);
      assert second == front + [last];
      KeysGrow(first + front, last);
      KeysGrow(front, last);
      FreshGrows(first + front, last, known);
      FreshGrows(front, last, known + Keys(first));
      assert known + Keys(first + front) == known + Keys(first) + Keys(front);
      AppendAssociates(Fresh(first, known), Fresh(front, known + Keys(first)),
                       if Key(last) in known + Keys(first + front) then [] else [last]);
    }
  }
}
