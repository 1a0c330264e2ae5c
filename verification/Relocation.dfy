/** poky/scripts/relocate_sdk.py: rewriting the install prefix inside fixed-size parts of a file. */
module Relocation {
  import opened Bytes
  import opened Lists
  import opened Wrappers

  /** The bytes of `##DEFAULT_INSTALL_DIR##`. */
  const MARK: seq<Byte> := [35, 35, 68, 69, 70, 65, 85, 76, 84, 95, 73, 78, 83, 84, 65, 76, 76, 95, 68, 73, 82, 35, 35]
  const HASH: Byte := 35
  const SLASH: Byte := 47

  lemma MarkSpelled()
    ensures MARK == Ascii("##DEFAULT_INSTALL_DIR##") && [HASH] == Ascii("#") && [SLASH] == Ascii("/")
  {
  }

  /** `old_prefix.sub(prefix, s)`: every mark, leftmost first. */
  function Sub(prefix: seq<Byte>, s: seq<Byte>): seq<Byte> {
    if s == [] then []
    else if MARK <= s then prefix + Sub(prefix, s[|MARK|..])
    else [s[0]] + Sub(prefix, s[1..])
  }

  ghost predicate HasMark(s: seq<Byte>) { exists i :: 0 <= i <= |s| && MARK <= s[i..] }

  // ---- what a substitution is: the text between the marks stays, each mark gives way to the prefix ----

  function Joined(sep: seq<Byte>, pieces: seq<seq<Byte>>): seq<Byte>
    requires pieces != []
  {
    if |pieces| == 1 then pieces[0] else pieces[0] + sep + Joined(sep, pieces[1..])
  }

  /** The mark after `p` is the first one in `p` and the mark. */
  ghost predicate MarkIsFirst(p: seq<Byte>) { forall i :: 0 <= i < |p| ==> !(MARK <= (p + MARK)[i..]) }

  /** The pieces of a text at its marks, each taken as early as it ends. */
  ghost predicate IsCut(s: seq<Byte>, pieces: seq<seq<Byte>>) {
    && pieces != [] && s == Joined(MARK, pieces) && !HasMark(pieces[|pieces| - 1])
    && forall i :: 0 <= i < |pieces| - 1 ==> MarkIsFirst(pieces[i])
  }

  lemma {:induction false} SubReplaces(prefix: seq<Byte>, s: seq<Byte>) returns (pieces: seq<seq<Byte>>)
    ensures IsCut(s, pieces) && Sub(prefix, s) == Joined(prefix, pieces)
  {
    hide Sub, Joined, HasMark, MarkIsFirst;
    SubStep(prefix, s);
    if s == [] {
      pieces := [[]];
      NothingCut(prefix);
    } else if MARK <= s {
      var rest := SubReplaces(prefix, s[|MARK|..]);
      pieces := [[]] + rest;
      MarkStaysCut(prefix, s, rest);
    } else {
      var rest := SubReplaces(prefix, s[1..]);
      pieces := [[s[0]] + rest[0]] + rest[1..];
      assert s == [s[0]] + s[1..];
      LongerFirst(MARK, s[0], rest);
      LongerFirst(prefix, s[0], rest);
      FirstStaysCut(s, pieces, rest);
    }
  }

  lemma SubStep(prefix: seq<Byte>, s: seq<Byte>)
    ensures Sub(prefix, s) ==
      if s == [] then [] else if MARK <= s then prefix + Sub(prefix, s[|MARK|..]) else [s[0]] + Sub(prefix, s[1..])
  {
  }

  lemma NothingCut(prefix: seq<Byte>)
    ensures IsCut([], [[]]) && Joined(prefix, [[]]) == []
  {
  }

  lemma MarkStaysCut(prefix: seq<Byte>, s: seq<Byte>, rest: seq<seq<Byte>>)
    requires MARK <= s && IsCut(s[|MARK|..], rest)
    ensures IsCut(s, [[]] + rest) && Joined(prefix, [[]] + rest) == prefix + Joined(prefix, rest)
  {
    hide HasMark;
    var pieces: seq<seq<Byte>> := [[]] + rest;
    assert pieces[1..] == rest && s == MARK + s[|MARK|..];
    assert [] + MARK + Joined(MARK, rest) == s && [] + prefix + Joined(prefix, rest) == prefix + Joined(prefix, rest);
    forall i | 0 <= i < |pieces| - 1 ensures MarkIsFirst(pieces[i]) {
      if i > 0 { assert MarkIsFirst(rest[i - 1]); }
    }
  }

  lemma LongerFirst(sep: seq<Byte>, c: Byte, rest: seq<seq<Byte>>)
    requires rest != []
    ensures Joined(sep, [[c] + rest[0]] + rest[1..]) == [c] + Joined(sep, rest)
  {
    var all := [[c] + rest[0]] + rest[1..];
    assert all[1..] == rest[1..];
    if |rest| > 1 {
      assert ([c] + rest[0]) + sep + Joined(sep, rest[1..]) == [c] + (rest[0] + sep + Joined(sep, rest[1..]));
    }
  }

  lemma FirstStaysCut(s: seq<Byte>, pieces: seq<seq<Byte>>, rest: seq<seq<Byte>>)
    requires s != [] && !(MARK <= s) && IsCut(s[1..], rest)
    requires pieces == [[s[0]] + rest[0]] + rest[1..] && s == Joined(MARK, pieces)
    ensures IsCut(s, pieces)
  {
    var p := pieces[0];
    if |rest| == 1 {
      forall i | 0 <= i <= |p| ensures !(MARK <= p[i..]) {
        if i > 0 { assert p[i..] == rest[0][i - 1..]; } else { assert p[0..] == s; }
      }
    } else {
      assert pieces[1..] == rest[1..] && s == p + MARK + Joined(MARK, rest[1..]);
      forall i | 0 <= i < |p| ensures !(MARK <= (p + MARK)[i..]) {
        if i > 0 {
          assert (p + MARK)[i..] == (rest[0] + MARK)[i - 1..];
          assert MarkIsFirst(rest[0]);
        } else {
          assert (p + MARK)[0..] == p + MARK <= s;
        }
      }
    }
  }

  /** Every cut gives the result, so there is one way to replace the marks. */
  lemma {:induction false} CutGivesSub(prefix: seq<Byte>, s: seq<Byte>, pieces: seq<seq<Byte>>)
    requires IsCut(s, pieces)
    ensures Sub(prefix, s) == Joined(prefix, pieces)
    decreases |s|
  {
    hide Sub, HasMark;
    SubStep(prefix, s);
    if |pieces| == 1 {
      SubClean(prefix, s);
    } else if pieces[0] == [] {
      assert s == MARK + Joined(MARK, pieces[1..]) && s[|MARK|..] == Joined(MARK, pieces[1..]);
      assert forall i :: 0 <= i < |pieces| - 2 ==> pieces[1..][i] == pieces[i + 1];
      CutGivesSub(prefix, s[|MARK|..], pieces[1..]);
      assert [] + prefix + Joined(prefix, pieces[1..]) == prefix + Joined(prefix, pieces[1..]);
    } else {
      var p, rest := pieces[0], [pieces[0][1..]] + pieces[1..];
      assert MarkIsFirst(p) && (p + MARK)[0..] == p + MARK <= s;
      assert [p[0]] + rest[0] == p && [[p[0]] + rest[0]] + rest[1..] == pieces;
      LongerFirst(MARK, p[0], rest);
      LongerFirst(prefix, p[0], rest);
      assert s[1..] == Joined(MARK, rest);
      ShorterIsFirst(p);
      assert forall i :: 0 < i < |pieces| - 1 ==> rest[i] == pieces[i];
      CutGivesSub(prefix, s[1..], rest);
    }
  }

  lemma ShorterIsFirst(p: seq<Byte>)
    requires p != [] && MarkIsFirst(p)
    ensures MarkIsFirst(p[1..])
  {
    forall i | 0 <= i < |p| - 1 ensures !(MARK <= (p[1..] + MARK)[i..]) {
      assert (p[1..] + MARK)[i..] == (p + MARK)[i + 1..];
    }
  }

  /** An absolute path without a `#`, as the installer passes. */
  predicate Plain(prefix: seq<Byte>) { prefix != [] && prefix[0] == SLASH && HASH !in prefix && NUL !in prefix }

  lemma {:induction false} SubClean(prefix: seq<Byte>, s: seq<Byte>)
    requires !HasMark(s)
    ensures Sub(prefix, s) == s
  {
    if s != [] {
      assert s[0..] == s;
      forall i | 0 <= i <= |s[1..]| ensures !(MARK <= s[1..][i..]) { assert s[1..][i..] == s[i + 1..]; }
      SubClean(prefix, s[1..]);
    }
  }

  /** What a substitution puts in does not start like a word without a slash. */
  lemma {:induction false} WordWasThere(prefix: seq<Byte>, s: seq<Byte>, w: seq<Byte>)
    requires Plain(prefix) && SLASH !in w && w <= Sub(prefix, s)
    ensures w <= s
    decreases |w|
  {
    if w != [] {
      assert w[0] in w;
      assert s != [] && !(MARK <= s);
      assert forall c :: c in w[1..] ==> c in w;
      assert w[1..] <= Sub(prefix, s[1..]);
      WordWasThere(prefix, s[1..], w[1..]);
      assert w == [w[0]] + w[1..] && s == [s[0]] + s[1..];
    }
  }

  /** No mark is left, and none is put together by accident. */
  lemma {:induction false} SubLeavesNoMark(prefix: seq<Byte>, s: seq<Byte>)
    requires Plain(prefix)
    ensures !HasMark(Sub(prefix, s))
  {
    if s != [] {
      var r := Sub(prefix, s);
      if MARK <= s {
        var rest := Sub(prefix, s[|MARK|..]);
        SubLeavesNoMark(prefix, s[|MARK|..]);
        forall i | 0 <= i <= |r| ensures !(MARK <= r[i..]) {
          if i < |prefix| {
            assert r[i] == prefix[i] != HASH == MARK[0];
          } else {
            assert r[i..] == rest[i - |prefix|..];
          }
        }
      } else {
        var rest := Sub(prefix, s[1..]);
        SubLeavesNoMark(prefix, s[1..]);
        forall i | 0 <= i <= |r| ensures !(MARK <= r[i..]) {
          if i > 0 {
            assert r[i..] == rest[i - 1..];
          } else if MARK <= r {
            WordWasThere(prefix, s, MARK);
          }
        }
      }
    }
  }

  // ---- fixed-size parts ----

  /** A part of `size` bytes after the prefix has been put in; none if it does not fit with a NUL. */
  function Patched(prefix: seq<Byte>, part: seq<Byte>, size: nat): (p: Option<seq<Byte>>)
    ensures p.Some? ==> |p.value| == size && size > 0 && p.value[size - 1] == NUL
  {
    var path := Strip(Sub(prefix, part));
    if |path| >= size then None else Some(path + Zeros(size - |path|))
  }

  lemma {:induction false} SubPadded(prefix: seq<Byte>, p: seq<Byte>, n: nat)
    requires NUL !in p
    ensures Sub(prefix, p + Zeros(n)) == Sub(prefix, p) + Zeros(n)
  {
    var s := p + Zeros(n);
    if p == [] {
      ZerosHaveNoMark(n);
      SubClean(prefix, Zeros(n));
      assert s == Zeros(n);
    } else if MARK <= s {
      MarkBeforeNul(p, n);
      assert s[|MARK|..] == p[|MARK|..] + Zeros(n);
      SubPadded(prefix, p[|MARK|..], n);
    } else {
      assert p <= s;
      assert s[1..] == p[1..] + Zeros(n);
      SubPadded(prefix, p[1..], n);
    }
  }

  lemma ZerosHaveNoMark(n: nat)
    ensures !HasMark(Zeros(n))
  {
    forall i | 0 <= i <= n ensures !(MARK <= Zeros(n)[i..]) {
      assert i < n ==> Zeros(n)[i..][0] == NUL;
    }
  }

  lemma NulAfter(p: seq<Byte>, n: nat, k: nat)
    requires |p| < k <= |p| + n
    ensures NUL in (p + Zeros(n))[..k]
  {
    assert (p + Zeros(n))[..k][|p|] == NUL;
  }

  lemma MarkBeforeNul(p: seq<Byte>, n: nat)
    requires NUL !in p && MARK <= p + Zeros(n)
    ensures MARK <= p
  {
    if |p| < |MARK| { NulAfter(p, n, |MARK|); }
    assert NUL !in MARK;
  }

  /** A padded path without NULs: its marks are replaced and it is padded again, exactly if there is room
      for it and a NUL. */
  lemma PathIsPatched(prefix: seq<Byte>, p: seq<Byte>, n: nat, size: nat)
    requires Plain(prefix) && NUL !in p
    ensures var path := Sub(prefix, p);
            Patched(prefix, p + Zeros(n), size) == if |path| < size then Some(path + Zeros(size - |path|)) else None
  {
    hide Sub, Strip, Zeros, Plain;
    SubPadded(prefix, p, n);
    SubStaysString(prefix, p);
    StripUnpads(Sub(prefix, p), n);
  }

  lemma NoMarkPadded(r: seq<Byte>, n: nat)
    requires !HasMark(r)
    ensures !HasMark(r + Zeros(n))
  {
    var s := r + Zeros(n);
    forall i | 0 <= i <= |s| ensures !(MARK <= s[i..]) {
      if i + |MARK| <= |r| {
        assert s[i..][..|MARK|] == r[i..][..|MARK|];
        assert MARK <= r[i..] ==> HasMark(r);
      } else if i + |MARK| <= |s| {
        assert s[i..][|MARK| - 1] == NUL;
      }
    }
  }

  lemma NoMarkPrefix(s: seq<Byte>, r: seq<Byte>)
    requires r <= s && !HasMark(s)
    ensures !HasMark(r)
  {
    forall i | 0 <= i <= |r| ensures !(MARK <= r[i..]) {
      assert r[i..] <= s[i..];
    }
  }

  /** Patching a part that has been patched changes nothing. */
  lemma PatchTwice(prefix: seq<Byte>, part: seq<Byte>, size: nat)
    requires Plain(prefix) && Patched(prefix, part, size).Some?
    ensures Patched(prefix, Patched(prefix, part, size).value, size) == Patched(prefix, part, size)
  {
    var path := Strip(Sub(prefix, part));
    hide Plain, HasMark, Sub, Zeros;
    SubLeavesNoMark(prefix, part);
    StripPads(Sub(prefix, part));
    NoMarkPrefix(Sub(prefix, part), path);
    NoMarkPadded(path, size - |path|);
    SubClean(prefix, path + Zeros(size - |path|));
    StripUnpads(path, size - |path|);
  }

  // ---- the library directories of the dynamic loader ----

  /** The strings of `.sysdirs`, up to the first empty one. */
  function Paths(s: seq<Byte>): (paths: seq<seq<Byte>>)
    ensures forall p :: p in paths ==> p != [] && NUL !in p
    decreases |s|
  {
    var k := Find(s, NUL);
    if k == 0 then []
    else if k == |s| then
      assert s[..k] == s;
      [s]
    else [s[..k]] + Paths(s[k + 1..])
  }

  /** The section spells these strings, up to its end or an empty string; a last NUL may be missing. */
  ghost predicate Spells(s: seq<Byte>, paths: seq<seq<Byte>>) {
    || s == Strings(paths)
    || (exists rest :: s == Strings(paths) + [NUL] + rest)
    || (paths != [] && s + [NUL] == Strings(paths))
  }

  lemma {:induction false} PathsAre(s: seq<Byte>)
    ensures Spells(s, Paths(s))
    decreases |s|
  {
    hide Spells, Strings, Find;
    var k := Find(s, NUL);
    if k == 0 {
      NoneSpelled(s);
    } else if k == |s| {
      assert s[..k] == s;
      OneSpelled(s);
    } else {
      var later := s[k + 1..];
      PathsAre(later);
      assert s == s[..k] + [NUL] + later;
      OneMoreSpelled(s[..k], later, Paths(later));
    }
  }

  lemma NoneSpelled(s: seq<Byte>)
    requires s != [] ==> s[0] == NUL
    ensures Spells(s, [])
  {
    if s != [] { assert s == Strings([]) + [NUL] + s[1..]; }
  }

  lemma OneSpelled(s: seq<Byte>)
    ensures Spells(s, [s])
  {
    assert Strings([s][1..]) == [] && Strings([s]) == s + [NUL] + [];
    assert s + [NUL] == Strings([s]);
  }

  lemma OneMoreSpelled(first: seq<Byte>, later: seq<Byte>, paths: seq<seq<Byte>>)
    requires Spells(later, paths)
    ensures Spells(first + [NUL] + later, [first] + paths)
  {
    var s, all := first + [NUL] + later, [first] + paths;
    assert all[1..] == paths && Strings(all) == first + [NUL] + Strings(paths);
    if rest :| later == Strings(paths) + [NUL] + rest {
      assert s == Strings(all) + [NUL] + rest;
    } else if paths != [] && later + [NUL] == Strings(paths) {
      assert s + [NUL] == Strings(all);
    }
  }

  function Strings(paths: seq<seq<Byte>>): seq<Byte> {
    if paths == [] then [] else paths[0] + [NUL] + Strings(paths[1..])
  }

  function SubAll(prefix: seq<Byte>, paths: seq<seq<Byte>>): (r: seq<seq<Byte>>)
    ensures |r| == |paths| && forall i :: 0 <= i < |r| ==> r[i] == Sub(prefix, paths[i])
  {
    seq(|paths|, i requires 0 <= i < |paths| => Sub(prefix, paths[i]))
  }

  /** The `w` bytes of a number, the lowest first. */
  function Pack(n: nat, w: nat): (b: seq<Byte>)
    ensures |b| == w
  {
    if w == 0 then [] else [(n % 256) as Byte] + Pack(n / 256, w - 1)
  }

  function Unpack(b: seq<Byte>): nat {
    if b == [] then 0 else b[0] as nat + 256 * Unpack(b[1..])
  }

  function Power(w: nat): nat { if w == 0 then 1 else 256 * Power(w - 1) }

  lemma {:induction false} UnpackPack(n: nat, w: nat)
    requires n < Power(w)
    ensures Unpack(Pack(n, w)) == n
  {
    if w > 0 {
      UnpackPack(n / 256, w - 1);
      assert Pack(n, w)[1..] == Pack(n / 256, w - 1);
    }
  }

  function Lengths(paths: seq<seq<Byte>>, w: nat): (b: seq<Byte>)
    ensures |b| == |paths| * w
  {
    if paths == [] then [] else
      Times(|paths|, w);
      Lengths(paths[..|paths| - 1], w) + Pack(|paths[|paths| - 1]|, w)
  }

  lemma LengthsGrow(paths: seq<seq<Byte>>, p: seq<Byte>, w: nat)
    ensures Lengths(paths + [p], w) == Lengths(paths, w) + Pack(|p|, w)
  {
  }

  lemma Times(n: nat, w: nat)
    requires n > 0
    ensures n * w == (n - 1) * w + w
  {
  }

  lemma {:induction false} StringsGrow(paths: seq<seq<Byte>>, p: seq<Byte>)
    ensures Strings(paths + [p]) == Strings(paths) + (p + [NUL])
  {
    if paths == [] {
      assert paths + [p] == [p] && p + [NUL] + [] == p + [NUL];
    } else {
      assert (paths + [p])[1..] == paths[1..] + [p];
      StringsGrow(paths[1..], p);
      AppendAssociates(paths[0] + [NUL], Strings(paths[1..]), p + [NUL]);
    }
  }

  /** Reading strings back that were written, one NUL after each, and padded. */
  lemma {:induction false} PathsOfStrings(paths: seq<seq<Byte>>, n: nat)
    requires forall p :: p in paths ==> p != [] && NUL !in p
    ensures Paths(Strings(paths) + Zeros(n)) == paths
  {
    hide Paths, Zeros;
    if paths == [] {
      NoPaths(n);
    } else {
      var p, rest := paths[0], Strings(paths[1..]) + Zeros(n);
      assert p in paths && forall q :: q in paths[1..] ==> q in paths;
      PathsOfStrings(paths[1..], n);
      AppendAssociates(p + [NUL], Strings(paths[1..]), Zeros(n));
      FirstPath(p, rest);
    }
  }

  lemma NoPaths(n: nat)
    ensures Paths([] + Zeros(n)) == []
  {
  }

  lemma FirstPath(p: seq<Byte>, rest: seq<Byte>)
    requires p != [] && NUL !in p
    ensures Paths(p + [NUL] + rest) == [p] + Paths(rest)
  {
    var s := p + [NUL] + rest;
    FindAfter(p, NUL, rest);
    assert s[..|p|] == p && s[|p| + 1..] == rest;
  }

  lemma {:induction false} SubStaysString(prefix: seq<Byte>, s: seq<Byte>)
    requires Plain(prefix) && NUL !in s
    ensures NUL !in Sub(prefix, s) && (s != [] ==> Sub(prefix, s) != [])
  {
    if s != [] {
      if MARK <= s { SubStaysString(prefix, s[|MARK|..]); } else { SubStaysString(prefix, s[1..]); }
    }
  }

  /** The section with the prefix put into every string. It may be longer than before. */
  function NewSysdirs(prefix: seq<Byte>, s: seq<Byte>, size: nat): seq<Byte> {
    var strings := Strings(SubAll(prefix, Paths(s)));
    strings + Zeros(if |strings| < size then size - |strings| else 0)
  }

  /** The rewritten section has the substituted strings; rewriting it again changes nothing. */
  lemma SysdirsTwice(prefix: seq<Byte>, s: seq<Byte>, size: nat)
    requires Plain(prefix)
    ensures var r := NewSysdirs(prefix, s, size);
            && Paths(r) == SubAll(prefix, Paths(s))
            && SubAll(prefix, Paths(r)) == Paths(r)
            && NewSysdirs(prefix, r, size) == r
  {
    hide Sub, SubAll, Plain, Paths, Zeros, Strings;
    var paths := SubAll(prefix, Paths(s));
    forall i | 0 <= i < |paths| ensures paths[i] != [] && NUL !in paths[i] && Sub(prefix, paths[i]) == paths[i] {
      assert Paths(s)[i] in Paths(s);
      SubTwice(prefix, Paths(s)[i]);
    }
    var n := if |Strings(paths)| < size then size - |Strings(paths)| else 0;
    PathsOfStrings(paths, n);
    SubAllClean(prefix, paths);
  }

  lemma SubAllClean(prefix: seq<Byte>, paths: seq<seq<Byte>>)
    requires forall i :: 0 <= i < |paths| ==> Sub(prefix, paths[i]) == paths[i]
    ensures SubAll(prefix, paths) == paths
  {
    hide Sub;
  }

  lemma SubTwice(prefix: seq<Byte>, s: seq<Byte>)
    requires Plain(prefix) && NUL !in s && s != []
    ensures var r := Sub(prefix, s); r != [] && NUL !in r && Sub(prefix, r) == r
  {
    SubStaysString(prefix, s);
    SubLeavesNoMark(prefix, s);
    SubClean(prefix, Sub(prefix, s));
  }

  /** Entry `i` of `.sysdirslen` is the length of string `i`. */
  lemma {:induction false} LengthsAt(paths: seq<seq<Byte>>, w: nat, i: nat)
    requires i < |paths| && |paths[i]| < Power(w)
    ensures i * w + w <= |paths| * w
    ensures Unpack(Lengths(paths, w)[i * w..i * w + w]) == |paths[i]|
  {
    hide Pack, Unpack, Power;
    var front, last := paths[..|paths| - 1], paths[|paths| - 1];
    Times(|paths|, w);
    var lengths, at := Lengths(front, w), i * w;
    if i < |front| {
      LengthsAt(front, w, i);
      FirstPart(lengths, Pack(|last|, w), at, at + w);
    } else {
      LastPart(lengths, Pack(|last|, w));
      UnpackPack(|last|, w);
    }
  }

  lemma FirstPart(a: seq<Byte>, b: seq<Byte>, i: nat, j: nat)
    requires i <= j <= |a|
    ensures (a + b)[i..j] == a[i..j]
  {
  }

  lemma LastPart(a: seq<Byte>, b: seq<Byte>)
    ensures (a + b)[|a|..|a| + |b|] == b
  {
  }
}
