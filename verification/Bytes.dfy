/** Bytes, and texts of bytes that are padded with NULs. */
module Bytes {
  newtype Byte = b: int | 0 <= b < 256

  const NUL: Byte := 0
  const SPACE: Byte := 32

  predicate NulFree(s: seq<Byte>) { NUL !in s }

  function Zeros(n: nat): seq<Byte> { seq(n, _ => NUL) }

  /** The bytes of an ASCII text; any other character becomes a question mark. */
  function Ascii(s: string): (b: seq<Byte>)
    ensures |b| == |s|
  {
    seq(|s|, i requires 0 <= i < |s| => if s[i] < '\U{80}' then s[i] as int as Byte else 63)
  }

  /** `rstrip('\0')` */
  function Strip(name: seq<Byte>): (s: seq<Byte>)
    ensures s <= name
  {
    if name != [] && name[|name| - 1] == NUL then Strip(name[..|name| - 1]) else name
  }

  predicate Stripped(name: seq<Byte>) { name == [] || name[|name| - 1] != NUL }

  lemma {:induction false} StripPads(name: seq<Byte>)
    ensures Stripped(Strip(name)) && name == Strip(name) + Zeros(|name| - |Strip(name)|)
  {
    if name != [] && name[|name| - 1] == NUL {
      StripPads(name[..|name| - 1]);
      assert name == name[..|name| - 1] + [NUL];
    }
  }

  lemma {:induction false} StripUnpads(name: seq<Byte>, pad: nat)
    requires Stripped(name)
    ensures Strip(name + Zeros(pad)) == name
  {
    if pad == 0 {
      assert name + Zeros(0) == name;
    } else {
      StripUnpads(name, pad - 1);
      var s := name + Zeros(pad);
      assert s[|s| - 1] == NUL && s[..|s| - 1] == name + Zeros(pad - 1);
    }
  }
}
