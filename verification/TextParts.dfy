/** Splitting texts at a separator and joining them again, as Python's `split` and `join` do. The
    separator is a colon unless another one is named. */
module TextParts {
  import opened Lists

  function Count(s: string, c: char): nat {
    if s == "" then 0 else Count(s[1..], c) + if s[0] == c then 1 else 0
  }

  /** `s.split(sep)` */
  function Split(s: string, sep: char := ':'): (parts: seq<string>)
    ensures |parts| == Count(s, sep) + 1
    ensures forall p :: p in parts ==> sep !in p
  {
    var k := Find(s, sep);
    CountFrom(s, sep, k);
    if k == |s| then
      assert s[..k] == s;
      [s]
    else [s[..k]] + Split(s[k + 1..], sep)
  }

  lemma {:induction false} CountFrom(s: string, sep: char, k: nat)
    requires k <= |s| && sep !in s[..k]
    ensures Count(s, sep) == Count(s[k..], sep)
    ensures k < |s| && s[k] == sep ==> Count(s, sep) == 1 + Count(s[k + 1..], sep)
    ensures k == |s| ==> Count(s, sep) == 0
  {
    if k > 0 {
      assert s[..k][0] == s[0];
      assert s[1..][..k - 1] == s[..k][1..];
      CountFrom(s[1..], sep, k - 1);
      assert s[1..][k - 1..] == s[k..];
      if k < |s| { assert s[1..][k..] == s[k + 1..]; }
    } else {
      assert s[0..] == s;
    }
  }

  /** `sep.join(parts)` */
  function Join(parts: seq<string>, sep: char := ':'): string {
    if parts == [] then ""
    else if |parts| == 1 then parts[0]
    else parts[0] + [sep] + Join(parts[1..], sep)
  }

  lemma {:induction false} JoinSplit(s: string, sep: char := ':')
    ensures Join(Split(s, sep), sep) == s
    decreases |s|
  {
    var k := Find(s, sep);
    if k < |s| {
      JoinSplit(s[k + 1..], sep);
      assert Split(s, sep)[1..] == Split(s[k + 1..], sep);
      assert s == s[..k] + [sep] + s[k + 1..];
    } else {
      assert s[..k] == s;
    }
  }

  lemma SplitFirst(a: string, rest: string, sep: char := ':')
    requires sep !in a
    ensures Split(a + [sep] + rest, sep) == [a] + Split(rest, sep)
  {
    FindAfter(a, sep, rest);
    assert (a + [sep] + rest)[..|a|] == a && (a + [sep] + rest)[|a| + 1..] == rest;
  }

  lemma SepsAssociate(a: string, b: string, c: string, sep: char := ':')
    ensures (a + [sep] + b) + [sep] + c == a + [sep] + (b + [sep] + c)
  {
  }

  lemma SplitWhole(s: string, sep: char := ':')
    requires sep !in s
    ensures Split(s, sep) == [s]
  {
  }

  lemma {:induction false} SplitTwo(a: string, b: string, sep: char := ':')
    ensures Split(a + [sep] + b, sep) == Split(a, sep) + Split(b, sep)
    decreases |a|
  {
    var k := Find(a, sep);
    if k == |a| {
      assert a[..k] == a;
      SplitFirst(a, b, sep);
    } else {
      SplitTwo(a[k + 1..], b, sep);
      SepsAssociate(a[..k], a[k + 1..], b, sep);
      assert a == a[..k] + [sep] + a[k + 1..];
      SplitFirst(a[..k], a[k + 1..] + [sep] + b, sep);
      AppendAssociates([a[..k]], Split(a[k + 1..], sep), Split(b, sep));
    }
  }

  lemma SplitInjective(a: string, b: string, sep: char := ':')
    ensures Split(a, sep) == Split(b, sep) <==> a == b
  {
    JoinSplit(a, sep);
    JoinSplit(b, sep);
  }

  lemma {:induction false} SplitJoin(p: seq<string>, sep: char := ':')
    requires p != [] && forall x :: x in p ==> sep !in x
    ensures Split(Join(p, sep), sep) == p
  {
    if |p| > 1 {
      SplitJoin(p[1..], sep);
      assert p[0] in p;
      SplitFirst(p[0], Join(p[1..], sep), sep);
    } else {
      assert p[0] in p;
      SplitWhole(p[0], sep);
    }
  }
}
