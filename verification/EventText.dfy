/** poky/bitbake/lib/pyinotify.py, `_RawEvent` and `_Event.__repr__`: an event's text, by which coalescing
    knows events. Texts are given by their bytes. */
module EventText {
  import opened Bytes
  import opened NameOrder

  /** A raw event; trailing NULs of the name are stripped. */
  datatype RawEvent = RawEvent(wd: int, mask: int, cookie: int, name: seq<Byte>)

  const SPACE_MASK: seq<Byte> := [32, 109, 97, 115, 107, 61]           // " mask="
  const SPACE_NAME: seq<Byte> := [32, 110, 97, 109, 101, 61]           // " name="
  const SPACE_WD: seq<Byte> := [32, 119, 100, 61]                      // " wd="
  const HEX: seq<Byte> := [48, 120]                                    // "0x"
  const MINUS: Byte := 45
  const QUOTES: seq<Byte> := [39, 39]

  /** A digit of a base up to sixteen. */
  function Digit(n: nat): Byte
    requires n < 16
  {
    if n < 10 then (48 + n) as Byte else (87 + n) as Byte
  }

  function Quotient(n: nat, hex: bool): (q: nat)
    ensures n > 0 ==> q < n
  {
    if hex then n / 16 else n / 10
  }

  function Rest(n: nat, hex: bool): (r: nat)
    ensures r < 16
  {
    if hex then n % 16 else n % 10
  }

  /** The digits of a number, hexadecimal or decimal. */
  function Digits(n: nat, hex: bool): (s: seq<Byte>)
    ensures s != [] && SPACE !in s && MINUS !in s
  {
    if Quotient(n, hex) == 0 then [Digit(Rest(n, hex))] else Digits(Quotient(n, hex), hex) + [Digit(Rest(n, hex))]
  }

  /** `str(n)` and `hex(n)` */
  function Number(n: int, hex: bool): (s: seq<Byte>)
    ensures SPACE !in s
  {
    (if n < 0 then [MINUS] else []) + (if hex then HEX else []) + Digits(if n < 0 then -n else n, hex)
  }

  /** What of its text tells an event from others: the attributes by name, the mask in hexadecimal, an empty
      name as two quotes. The same class name stands before it and the same bracket after it. */
  function Key(e: RawEvent): seq<Byte> {
    Number(e.cookie, false) + (SPACE_MASK + (Number(e.mask, true)
      + (SPACE_NAME + ((if e.name == [] then QUOTES else e.name) + (SPACE_WD + Number(e.wd, false))))))
  }

  lemma LastDigit(n: nat, hex: bool)
    ensures var s := Digits(n, hex);
            && s[|s| - 1] == Digit(Rest(n, hex))
            && (Quotient(n, hex) == 0 <==> |s| == 1)
            && (Quotient(n, hex) > 0 ==> s[..|s| - 1] == Digits(Quotient(n, hex), hex))
  {
  }

  lemma SameParts(m: nat, n: nat, hex: bool)
    requires Quotient(m, hex) == Quotient(n, hex) && Rest(m, hex) == Rest(n, hex)
    ensures m == n
  {
  }

  lemma {:induction false} DigitsInjective(m: nat, n: nat, hex: bool)
    requires Digits(m, hex) == Digits(n, hex)
    ensures m == n
  {
    LastDigit(m, hex);
    LastDigit(n, hex);
    assert Rest(m, hex) == Rest(n, hex);
    hide Quotient, Rest, Digits, Digit;
    if Quotient(m, hex) > 0 { DigitsInjective(Quotient(m, hex), Quotient(n, hex), hex); }
    SameParts(m, n, hex);
  }

  lemma NumberInjective(m: int, n: int, hex: bool)
    requires Number(m, hex) == Number(n, hex)
    ensures m == n
  {
    var a, b := if m < 0 then -m else m, if n < 0 then -n else n;
    var lead: seq<Byte> := if hex then HEX else [];
    var s := Number(m, hex);
    SignFirst(m, hex);
    SignFirst(n, hex);
    var skip := (if m < 0 then 1 else 0) + |lead|;
    assert s[skip..] == Digits(a, hex) && s[skip..] == Digits(b, hex);
    DigitsInjective(a, b, hex);
  }

  lemma SignFirst(n: int, hex: bool)
    ensures Number(n, hex) != [] && (Number(n, hex)[0] == MINUS <==> n < 0)
  {
    var d := Digits(if n < 0 then -n else n, hex);
    assert d[0] in d;
  }

  /** Texts that begin with a part without spaces, and then a space. */
  lemma FirstPart(a: seq<Byte>, b: seq<Byte>, x: seq<Byte>, y: seq<Byte>, rest: seq<Byte>)
    requires SPACE !in a && SPACE !in b && rest != [] && rest[0] == SPACE && a + (rest + x) == b + (rest + y)
    ensures a == b && x == y
  {
    var s := a + (rest + x);
    assert s[|a|] == SPACE && s[|b|] == SPACE;
    assert forall i :: 0 <= i < |a| ==> s[i] == a[i];
    assert forall i :: 0 <= i < |b| ==> s[i] == b[i];
    assert a == s[..|a|] && b == s[..|b|];
    assert x == s[|a| + |rest|..] && y == s[|b| + |rest|..];
  }

  /** Texts that end with a space, a word and a part without spaces. */
  lemma LastPart(x: seq<Byte>, y: seq<Byte>, a: seq<Byte>, b: seq<Byte>, word: seq<Byte>)
    requires SPACE !in a && SPACE !in b && word != [] && word[0] == SPACE && SPACE !in word[1..]
    requires x + (word + a) == y + (word + b)
    ensures x == y && a == b
  {
    var s := x + (word + a);
    assert s[|x|] == SPACE && s[|y|] == SPACE;
    assert forall i :: |x| < i < |s| ==> s[i] == (word[1..] + a)[i - |x| - 1];
    assert forall i :: |y| < i < |s| ==> s[i] == (word[1..] + b)[i - |y| - 1];
    assert x == s[..|x|] && y == s[..|y|];
    assert a == s[|x| + |word|..] && b == s[|y| + |word|..];
  }

  /** Two events are taken for the same exactly if they are, or differ only in an empty name against
      one that is literally two quotes: spaces and equal signs in names mislead nobody. */
  lemma KeyInjectiveIff(a: RawEvent, b: RawEvent)
    ensures Key(a) == Key(b) <==>
      a == b || (a.(name := []) == b.(name := []) && {a.name, b.name} == {[], QUOTES})
  {
    if a.(name := []) == b.(name := []) && {a.name, b.name} == {[], QUOTES} {
      assert a.name in {[], QUOTES} && b.name in {[], QUOTES};
    }
    if Key(a) == Key(b) { KeyReads(a, b); }
  }

  lemma KeyReads(a: RawEvent, b: RawEvent)
    requires Key(a) == Key(b)
    ensures a.wd == b.wd && a.mask == b.mask && a.cookie == b.cookie
    ensures (if a.name == [] then QUOTES else a.name) == (if b.name == [] then QUOTES else b.name)
  {
    hide Number;
    var an, bn := if a.name == [] then QUOTES else a.name, if b.name == [] then QUOTES else b.name;
    var aw, bw := Number(a.wd, false), Number(b.wd, false);
    var am, bm := Number(a.mask, true), Number(b.mask, true);
    FirstPart(Number(a.cookie, false), Number(b.cookie, false), am + (SPACE_NAME + (an + (SPACE_WD + aw))),
              bm + (SPACE_NAME + (bn + (SPACE_WD + bw))), SPACE_MASK);
    FirstPart(am, bm, an + (SPACE_WD + aw), bn + (SPACE_WD + bw), SPACE_NAME);
    LastPart(an, bn, aw, bw, SPACE_WD);
    NumberInjective(a.cookie, b.cookie, false);
    NumberInjective(a.mask, b.mask, true);
    NumberInjective(a.wd, b.wd, false);
  }

  // ---- the text, spelled out ----

  /** What a character is worth as a digit. */
  function Worth(c: char): nat {
    if '0' <= c <= '9' then c as int - '0' as int
    else if 'a' <= c <= 'f' then 10 + (c as int - 'a' as int)
    else 16
  }

  function Base(hex: bool): nat { if hex then 16 else 10 }

  /** Reading digits from the left. */
  function ValueOf(s: seq<Byte>, hex: bool): nat {
    if s == [] then 0 else Base(hex) * ValueOf(s[..|s| - 1], hex) + Worth(s[|s| - 1] as char)
  }

  /** The digits are those of the base and say the number, without a leading zero. */
  lemma {:induction false} DigitsRead(n: nat, hex: bool)
    ensures var s := Digits(n, hex);
            && ValueOf(s, hex) == n && (forall d :: d in s ==> Worth(d as char) < Base(hex))
            && (n > 0 ==> s[0] as char != '0')
  {
    hide Digits, Digit, Quotient, Rest, Worth;
    LastDigit(n, hex);
    DigitWorth(n, hex);
    var s, last := Digits(n, hex), |Digits(n, hex)| - 1;
    assert s == s[..last] + [s[last]];
    if Quotient(n, hex) > 0 {
      DigitsRead(Quotient(n, hex), hex);
      assert s[0] == s[..last][0];
    } else {
      assert s[..last] == [];
    }
  }

  lemma DigitWorth(n: nat, hex: bool)
    ensures var d := Digit(Rest(n, hex)) as char;
            && Worth(d) == Rest(n, hex) < Base(hex) && (d == '0' <==> Rest(n, hex) == 0)
            && n == Base(hex) * Quotient(n, hex) + Rest(n, hex)
  {
  }

  /** Sign and base are marked as usual. */
  lemma NumberReads(n: int, hex: bool)
    ensures var lead := Ascii(if n < 0 then "-" else "") + Ascii(if hex then "0x" else "");
            var s := Number(n, hex);
            && lead <= s && ValueOf(s[|lead|..], hex) == (if n < 0 then -n else n)
            && forall d :: d in s[|lead|..] ==> Worth(d as char) < Base(hex)
  {
    var m := if n < 0 then -n else n;
    var lead := Ascii(if n < 0 then "-" else "") + Ascii(if hex then "0x" else "");
    DigitsRead(m, hex);
    assert lead == (if n < 0 then [MINUS] else []) + (if hex then HEX else []);
    hide Digits, Ascii;
    assert Number(n, hex)[|lead|..] == Digits(m, hex);
  }

  /** An attribute as `__repr__` shows it. */
  function Shown(name: string, value: seq<Byte>): seq<Byte> {
    Ascii(" ") + Ascii(name) + Ascii("=") + value
  }

  /** `repr` of an event: the class, and the attributes in the order of their names. */
  function Text(e: RawEvent): seq<Byte> {
    Ascii("<_RawEvent") + Shown("cookie", Number(e.cookie, false)) + Shown("mask", Number(e.mask, true))
    + Shown("name", if e.name == [] then Ascii("''") else e.name) + Shown("wd", Number(e.wd, false)) + Ascii(" >")
  }

  lemma NamesAscend()
    ensures Ascending(["cookie", "mask", "name", "wd"])
  {
  }

  /** Nothing that could tell events apart is left out of the part by which they are compared. */
  lemma TextIsKey(e: RawEvent)
    ensures Text(e) == Ascii("<_RawEvent cookie=") + Key(e) + Ascii(" >")
  {
    SpelledOut();
    var name := if e.name == [] then QUOTES else e.name;
    JoinParts(Ascii("<_RawEvent"), Ascii(" ") + Ascii("cookie") + Ascii("="), Number(e.cookie, false),
              SPACE_MASK, Number(e.mask, true), SPACE_NAME, name, SPACE_WD, Number(e.wd, false), Ascii(" >"));
    hide Ascii, Number;
  }

  lemma JoinParts(c: seq<Byte>, a1: seq<Byte>, v1: seq<Byte>, a2: seq<Byte>, v2: seq<Byte>, a3: seq<Byte>, v3: seq<Byte>,
                  a4: seq<Byte>, v4: seq<Byte>, end: seq<Byte>)
    ensures c + (a1 + v1) + (a2 + v2) + (a3 + v3) + (a4 + v4) + end
      == (c + a1) + (v1 + (a2 + (v2 + (a3 + (v3 + (a4 + v4)))))) + end
  {
    var x4 := a4 + v4;
    var x3 := a3 + v3 + x4;
    assert x3 == a3 + (v3 + x4);
    var x2 := a2 + v2 + x3;
    assert x2 == a2 + (v2 + x3);
    assert c + (a1 + v1) + x2 == (c + a1) + (v1 + x2);
    assert c + (a1 + v1) + (a2 + v2) + (a3 + v3) + x4 == c + (a1 + v1) + x2;
  }

  lemma SpelledOut()
    ensures Ascii(" ") + Ascii("mask") + Ascii("=") == SPACE_MASK && Ascii(" ") + Ascii("name") + Ascii("=") == SPACE_NAME
    ensures Ascii(" ") + Ascii("wd") + Ascii("=") == SPACE_WD && Ascii("''") == QUOTES
    ensures Ascii("<_RawEvent") + (Ascii(" ") + Ascii("cookie") + Ascii("=")) == Ascii("<_RawEvent cookie=")
  {
  }
}
