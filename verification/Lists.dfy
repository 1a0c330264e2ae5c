/** Facts about lists that several components use. */
module Lists {

  function Elements<T>(s: seq<T>): set<T> { set x | x in s }

  ghost predicate NoDuplicates<T>(s: seq<T>) {
    forall i, j :: 0 <= i < j < |s| ==> s[i] != s[j]
  }

  lemma PrefixGrows<T>(s: seq<T>, k: nat)
    requires k < |s|
    ensures s[..k + 1] == s[..k] + [s[k]]
    ensures forall x :: x in s[..k + 1] <==> x in s[..k] || x == s[k]
  {
  }

  lemma AppendAssociates<T>(a: seq<T>, b: seq<T>, c: seq<T>)
    ensures a + (b + c) == (a + b) + c
  {
  }

  lemma JoinDistinct<T>(a: seq<T>, b: seq<T>)
    requires NoDuplicates(a) && NoDuplicates(b) && forall v :: v in a ==> v !in b
    ensures NoDuplicates(a + b) && forall v :: v in a + b <==> v in a || v in b
  {
    forall i, j | 0 <= i < j < |a + b| ensures (a + b)[i] != (a + b)[j] {
      assert i < |a| ==> (a + b)[i] in a;
      assert j >= |a| ==> (a + b)[j] in b;
    }
  }

  /** The position of the first `x`, or the length if there is none. */
  function Find<T(==)>(s: seq<T>, x: T): (i: nat)
    ensures i <= |s| && x !in s[..i] && (i < |s| ==> s[i] == x)
  {
    if s == [] || s[0] == x then 0
    else
      var i := Find(s[1..], x);
      assert s[..i + 1] == [s[0]] + s[1..][..i];
      i + 1
  }

  lemma {:induction false} FindInAppended<T>(s: seq<T>, t: seq<T>, x: T)
    ensures Find(s, x) < |s| ==> Find(s + t, x) == Find(s, x)
    ensures Find(s, x) == |s| ==> Find(s + t, x) == |s| + Find(t, x)
  {
    if s == [] {
      assert s + t == t;
    } else {
      assert (s + t)[1..] == s[1..] + t;
      FindInAppended(s[1..], t, x);
    }
  }

  lemma FindAfter<T>(m: seq<T>, x: T, rest: seq<T>)
    requires x !in m
    ensures Find(m + [x] + rest, x) == |m|
  {
    assert m + [x] + rest == m + ([x] + rest);
    FindInAppended(m, [x] + rest, x);
  }
}
