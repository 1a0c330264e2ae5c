/** Strings in the order of Python's `sorted`: by code point, a proper prefix first. */
module NameOrder {
  import opened Lists

  predicate Below(a: string, b: string) {
    b != "" && (a == "" || a[0] < b[0] || (a[0] == b[0] && Below(a[1..], b[1..])))
  }

  /** The first `i` characters agree, and the next one of `a` is the smaller. */
  ghost predicate FirstDifference(a: string, b: string, i: nat) {
    i < |a| && i < |b| && a[..i] == b[..i] && a[i] < b[i]
  }

  /** The order without recursion: a proper prefix, or a smaller character at the first difference. */
  lemma {:induction false} BelowIff(a: string, b: string)
    ensures Below(a, b) <==> a < b || exists i: nat :: FirstDifference(a, b, i)
  {
    if a != "" && b != "" {
      if a[0] == b[0] {
        BelowIff(a[1..], b[1..]);
        assert a == [a[0]] + a[1..] && b == [b[0]] + b[1..];
        if i: nat :| FirstDifference(a[1..], b[1..], i) {
          assert a[..i + 1] == [a[0]] + a[1..][..i] && b[..i + 1] == [b[0]] + b[1..][..i];
          assert FirstDifference(a, b, i + 1);
        }
        if i: nat :| FirstDifference(a, b, i) {
          assert i > 0;
          assert a[1..][..i - 1] == a[..i][1..] && b[1..][..i - 1] == b[..i][1..];
          assert FirstDifference(a[1..], b[1..], i - 1);
        }
      } else {
        if a[0] < b[0] { assert FirstDifference(a, b, 0); }
        if i: nat :| FirstDifference(a, b, i) && a[..i] != "" { assert false; }
      }
    }
  }

  ghost predicate Ascending(s: seq<string>) {
    forall i, j :: 0 <= i < j < |s| ==> Below(s[i], s[j])
  }

  lemma {:induction false} BelowTrichotomy(a: string, b: string)
    ensures Below(a, b) || a == b || Below(b, a)
    ensures !(Below(a, b) && Below(b, a))
    ensures !Below(a, a)
  {
    if a != "" && b != "" {
      BelowTrichotomy(a[1..], b[1..]);
      BelowTrichotomy(a[1..], a[1..]);
      if a[0] == b[0] && a[1..] == b[1..] {
        assert a == [a[0]] + a[1..] == b;
      }
    } else if a != "" {
      BelowTrichotomy(a[1..], a[1..]);
    }
  }

  lemma {:induction false} BelowTransitive(a: string, b: string, c: string)
    requires Below(a, b) && Below(b, c)
    ensures Below(a, c)
  {
    if a != "" && a[0] == b[0] && b[0] == c[0] {
      BelowTransitive(a[1..], b[1..], c[1..]);
    }
  }

  ghost predicate IsLeast(m: string, names: set<string>) {
    m in names && forall n :: n in names && n != m ==> Below(m, n)
  }

  lemma {:induction false} LeastExists(names: set<string>)
    requires names != {}
    ensures exists m :: IsLeast(m, names)
  {
    var x :| x in names;
    var rest := names - {x};
    if rest == {} {
      assert names == {x};
      assert IsLeast(x, names);
    } else {
      LeastExists(rest);
      var m :| IsLeast(m, rest);
      BelowTrichotomy(x, m);
      if Below(x, m) {
        forall n | n in names && n != x ensures Below(x, n) {
          if n != m { BelowTransitive(x, m, n); }
        }
        assert IsLeast(x, names);
      } else {
        assert IsLeast(m, names);
      }
    }
  }

  /** The one ascending list of a set of names. */
  ghost function Sorted(names: set<string>): (s: seq<string>)
    ensures Ascending(s) && Elements(s) == names && NoDuplicates(s)
  {
    if names == {} then []
    else
      LeastExists(names);
      var m :| IsLeast(m, names);
      var rest := Sorted(names - {m});
      var s := [m] + rest;
      assert forall j :: 0 < j < |s| ==> s[j] in Elements(rest);
      assert Elements(s) == {m} + Elements(rest);
      s
  }

  /** Whatever order the set is walked in, sorting it has one possible result. */
  lemma {:induction false} AscendingUnique(s: seq<string>, t: seq<string>)
    requires Ascending(s) && Ascending(t) && Elements(s) == Elements(t)
    ensures s == t
  {
    if s == [] {
      NoElements(s);
      NoElements(t);
    } else {
      assert s[0] in Elements(t);
      var j :| 0 <= j < |t| && t[j] == s[0];
      assert t[0] in Elements(s);
      var i :| 0 <= i < |s| && s[i] == t[0];
      BelowTrichotomy(s[0], t[0]);
      assert s[0] == t[0];
      forall x ensures x in s[1..] <==> x in t[1..] {
        TailMember(s, x);
        TailMember(t, x);
      }
      AscendingUnique(s[1..], t[1..]);
      assert s == [s[0]] + s[1..] && t == [t[0]] + t[1..];
    }
  }

  lemma NoElements<T>(s: seq<T>)
    ensures s == [] <==> Elements(s) == {}
  {
    if s != [] { assert s[0] in Elements(s); }
  }

  lemma TailMember(s: seq<string>, x: string)
    requires Ascending(s) && s != []
    ensures x in s[1..] <==> x in Elements(s) && x != s[0]
  {
    if x in s[1..] {
      var i :| 0 <= i < |s| - 1 && s[1..][i] == x;
      assert s[i + 1] == x;
      BelowTrichotomy(s[0], x);
    }
  }

  method SortNames(names: set<string>) returns (s: seq<string>)
    ensures s == Sorted(names)
  {
    var rest := names;
    s := [];
    while rest != {}
      invariant rest <= names && Ascending(s) && Elements(s) == names - rest
      invariant forall x, y :: x in s && y in rest ==> Below(x, y)
      decreases rest
    {
      LeastExists(rest);
      assert exists m :: m in rest && forall n :: n in rest && n != m ==> Below(m, n) by {
        var m :| IsLeast(m, rest);
      }
      var m :| m in rest && forall n :: n in rest && n != m ==> Below(m, n);
      rest := rest - {m};
      ghost var before := s;
      s := s + [m];
      assert Elements(s) == Elements(before) + {m};
    }
    AscendingUnique(s, Sorted(names));
  }
}
