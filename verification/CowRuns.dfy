/** poky/bitbake/lib/bb/COW.py over whole runs: when a tree of copy-on-write dictionaries behaves
    like a tree of ordinary dictionaries, each with the last entry written to it. */
module CowRuns {
  import opened CowLayers
  import opened Wrappers

  /** All levels of a tree: the line of each from the root to itself, and its own entries. */
  datatype World = World(lines: seq<seq<nat>>, layers: seq<Layer>)

  /** A call on the level `at`. `Change` gets a value for writing and leaves it with these contents;
      with the contents that it had, it is a lookup that copies. */
  datatype Op =
    | Cow(at: nat)
    | Put(at: nat, key: string, value: int)
    | Del(at: nat, key: string)
    | PutMutable(at: nat, key: string, contents: seq<int>)
    | Change(at: nat, key: string, contents: seq<int>)

  predicate Tree(w: World) {
    && |w.lines| == |w.layers|
    && (forall m, k :: 0 <= m < |w.lines| && 0 <= k < |w.lines[m]| ==> w.lines[m][k] < |w.lines|)
    && forall m :: 0 <= m < |w.lines| ==> LineOk(w.lines, m)
  }

  predicate LineOk(lines: seq<seq<nat>>, m: nat)
    requires m < |lines|
  {
    && lines[m] != [] && lines[m][|lines[m]| - 1] == m
    && forall k :: 0 <= k < |lines[m]| && lines[m][k] < |lines| ==> lines[lines[m][k]] == lines[m][..k + 1]
  }

  function StackOf(w: World, m: nat): (layers: seq<Layer>)
    requires Tree(w) && m < |w.lines|
    ensures |layers| == |w.lines[m]|
  {
    seq(|w.lines[m]|, k requires 0 <= k < |w.lines[m]| => w.layers[w.lines[m][k]])
  }

  function Write(w: World, l: nat, name: string, cell: Cell): World
    requires Tree(w) && l < |w.lines|
  {
    w.(layers := w.layers[l := w.layers[l][name := cell]])
  }

  predicate Fits(w: World, op: Op) {
    Tree(w) && op.at < |w.lines| && (!op.Cow? ==> UserKey(op.key))
  }

  function Grown(w: World, l: nat): World
    requires Tree(w) && l < |w.lines|
  {
    World(w.lines + [w.lines[l] + [|w.lines|]], w.layers + [map[]])
  }

  /** What a call does. */
  function Step(w: World, op: Op): World
    requires Fits(w, op)
  {
    match op
    case Cow(l) => Grown(w, l)
    case Put(l, key, v) => Write(w, l, key, Plain(v))
    case Del(l, key) => Write(w, l, key, Marker)
    case PutMutable(l, key, c) => Write(w, l, MutableName(key), Mutable(c))
    case Change(l, key, c) =>
      if View(StackOf(w, l), key).Contents? then Write(w, l, MutableName(key), Mutable(c)) else w
  }

  /** A lookup in ordinary dictionaries: the nearest entry, whatever its kind. */
  function Look(layers: seq<Layer>, key: string): Seen {
    match Attribute(layers, key) case None => Absent case Some(c) => AsSeen(c)
  }

  /** What the call does to ordinary dictionaries: a write replaces the level's entry for the key. */
  function Expected(d: World, op: Op): World
    requires Fits(d, op)
  {
    match op
    case Cow(l) => Grown(d, l)
    case Put(l, key, v) => Write(d, l, key, Plain(v))
    case Del(l, key) => Write(d, l, key, Marker)
    case PutMutable(l, key, c) => Write(d, l, key, Mutable(c))
    case Change(l, key, c) =>
      if Look(StackOf(d, l), key).Contents? then Write(d, l, key, Mutable(c)) else d
  }

  ghost predicate AgreeAt(w: World, d: World, m: nat, key: string)
    requires Tree(w) && Tree(d) && m < |w.lines| && w.lines == d.lines
  {
    View(StackOf(w, m), key) == Look(StackOf(d, m), key)
  }

  /** Every lookup at every level gives what it would in the ordinary dictionaries. */
  ghost predicate Agree(w: World, d: World) {
    && Tree(w) && Tree(d) && w.lines == d.lines
    && forall m, key :: 0 <= m < |w.lines| && UserKey(key) ==> AgreeAt(w, d, m, key)
  }

  /** The own entry of the key is the ordinary dictionary's. */
  predicate Matches(layer: Layer, own: Layer, key: string) {
    Own(layer, key) == if key in own then Some(own[key]) else None
  }

  ghost predicate Mirrors(w: World, d: World) {
    && Agree(w, d)
    && forall m :: 0 <= m < |w.lines| ==>
      ProperLayer(w.layers[m]) && forall key :: UserKey(key) ==> Matches(w.layers[m], d.layers[m], key)
  }

  predicate Below(w: World, l: nat, m: nat) {
    m < |w.lines| && m != l && l in w.lines[m]
  }

  predicate OnlyMutable(layer: Layer, key: string) {
    MutableName(key) in layer && key !in layer
  }

  predicate NoMutableBelow(w: World, l: nat, key: string)
    requires Tree(w)
  {
    forall m :: 0 <= m < |w.lines| && Below(w, l, m) ==> !OnlyMutable(w.layers[m], key)
  }

  /** An immutable value or a deletion needs that no level below has a mutable value of its own for
      the key; a mutable value needs that neither the level nor one above it has an immutable value
      or a deletion. */
  predicate Careful(w: World, op: Op)
    requires Fits(w, op)
  {
    match op
    case Cow(_) => true
    case Put(l, key, _) => NoMutableBelow(w, l, key)
    case Del(l, key) => NoMutableBelow(w, l, key)
    case PutMutable(l, key, _) => Attribute(StackOf(w, l), key).None?
    case Change(_, _, _) => true
  }

  // ---- one write, seen through one stack ----

  /** The stacks of one level in both trees, as far as a key goes. */
  ghost predicate Twins(s: seq<Layer>, d: seq<Layer>, key: string) {
    && |s| == |d| && ProperLayers(s) && UserKey(key)
    && (forall j :: 0 <= j < |s| ==> Matches(s[j], d[j], key))
    && View(s, key) == Look(d, key)
  }

  lemma {:induction false} NoneAnywhere(layers: seq<Layer>, name: string)
    ensures Attribute(layers, name).None? <==> forall j :: 0 <= j < |layers| ==> name !in layers[j]
  {
    if layers != [] {
      var last := |layers| - 1;
      NoneAnywhere(layers[..last], name);
      assert forall j :: 0 <= j < last ==> layers[j] == layers[..last][j];
      assert name in layers[last] ==> Attribute(layers, name).Some?;
    }
  }

  lemma PlainThroughStack(s: seq<Layer>, d: seq<Layer>, i: nat, key: string, cell: Cell, k: string)
    requires Twins(s, d, k) && UserKey(key) && i < |s| && !cell.Mutable?
    requires k == key ==> forall j :: i < j < |s| ==> !OnlyMutable(s[j], key)
    ensures View(Written(s, i, key, cell), k) == Look(Written(d, i, key, cell), k)
  {
    PlainWriteSeen(s, i, key, cell, k);
    AttributeAfterWrite(d, i, key, cell, k);
    if k == key {
      assert forall j :: i < j < |s| ==> Matches(s[j], d[j], key) && (key in s[j] <==> key in d[j]);
    }
  }

  lemma MutableThroughStack(s: seq<Layer>, d: seq<Layer>, i: nat, key: string, c: seq<int>, k: string)
    requires Twins(s, d, k) && UserKey(key) && i < |s| && Attribute(s[..i + 1], key).None?
    ensures View(Written(s, i, MutableName(key), Mutable(c)), k) == Look(Written(d, i, key, Mutable(c)), k)
  {
    MutableWriteSeen(s, i, key, c, k);
    AttributeAfterWrite(d, i, key, Mutable(c), k);
    if k == key {
      NoneAnywhere(s, key);
      assert forall j :: i < j < |s| ==> Matches(s[j], d[j], key);
      if !HasNearer(s, i, key) {
        SameAbove(s, i, key);
      }
      assert Attribute(s, key).None? && !HasNearer(s, i, MutableName(key)) <==> !HasNearer(d, i, key);
    }
  }

  /** A mutable value is what a lookup sees only if no immutable entry is in the stack. */
  lemma ContentsMeanNone(s: seq<Layer>, key: string)
    requires ProperLayers(s) && UserKey(key) && View(s, key).Contents?
    ensures Attribute(s, key).None?
  {
    if Attribute(s, key).Some? { CellKind(s, key); }
  }

  /** An immutable value hides the mutable value of a level below. */
  lemma PlainHides(s: seq<Layer>, d: seq<Layer>, i: nat, key: string, cell: Cell)
    requires Twins(s, d, key) && i < |s| - 1 && !cell.Mutable? && OnlyMutable(s[|s| - 1], key)
    ensures View(Written(s, i, key, cell), key) != Look(Written(d, i, key, cell), key)
  {
    hide ProperLayer, Matches, UserKey, OnlyMutable, Own, MutableName, View, Look;
    OwnMutableSeen(s, d, key);
    NoneAnywhere(s, key);
    PlainWriteSeen(s, i, key, cell, key);
    LookLast(Written(d, i, key, cell), key);
  }

  lemma OwnMutableSeen(s: seq<Layer>, d: seq<Layer>, key: string)
    requires Twins(s, d, key) && s != [] && OnlyMutable(s[|s| - 1], key)
    ensures key in d[|s| - 1] && d[|s| - 1][key].Mutable? && Attribute(s, key).None?
  {
    var last := |s| - 1;
    assert ProperLayer(s[last]) && Matches(s[last], d[last], key);
    MutableNameApart(key);
    LookLast(d, key);
    ContentsMeanNone(s, key);
  }

  lemma LookLast(d: seq<Layer>, key: string)
    requires d != [] && key in d[|d| - 1]
    ensures Look(d, key) == AsSeen(d[|d| - 1][key])
  {
  }

  /** A mutable value below an immutable one or a deletion is not seen. */
  lemma MutableHidden(s: seq<Layer>, d: seq<Layer>, key: string, c: seq<int>)
    requires Twins(s, d, key) && s != [] && Attribute(s, key).Some?
    ensures View(Written(s, |s| - 1, MutableName(key), Mutable(c)), key) !=
      Look(Written(d, |s| - 1, key, Mutable(c)), key)
  {
    MutableWriteSeen(s, |s| - 1, key, c, key);
    CellKind(s, key);
  }

  // ---- one call, at every level ----

  lemma InLine(w: World, l: nat, m: nat)
    requires Tree(w) && m < |w.lines| && l in w.lines[m]
    ensures l < |w.lines| && 0 < |w.lines[l]| <= |w.lines[m]| && w.lines[m][..|w.lines[l]|] == w.lines[l]
    ensures forall k :: 0 <= k < |w.lines[m]| ==> (w.lines[m][k] == l <==> k == |w.lines[l]| - 1)
  {
    assert LineOk(w.lines, m);
    var at :| 0 <= at < |w.lines[m]| && w.lines[m][at] == l;
    assert w.lines[l] == w.lines[m][..at + 1];
    forall k | 0 <= k < |w.lines[m]| && w.lines[m][k] == l ensures k == at {
      assert w.lines[l] == w.lines[m][..k + 1];
    }
  }

  lemma StackWritten(w: World, l: nat, name: string, cell: Cell, m: nat)
    requires Tree(w) && l < |w.lines| && m < |w.lines|
    ensures Tree(Write(w, l, name, cell))
    ensures var s, i := StackOf(w, m), |w.lines[l]| - 1;
            if l in w.lines[m]
            then 0 <= i < |s| && s[..i + 1] == StackOf(w, l)
                 && StackOf(Write(w, l, name, cell), m) == Written(s, i, name, cell)
            else StackOf(Write(w, l, name, cell), m) == s
  {
    if l in w.lines[m] {
      InLine(w, l, m);
    }
  }

  lemma TwinsAt(w: World, d: World, m: nat, key: string)
    requires Mirrors(w, d) && m < |w.lines| && UserKey(key)
    ensures Tree(w) && Tree(d) && w.lines == d.lines && Twins(StackOf(w, m), StackOf(d, m), key)
  {
    assert AgreeAt(w, d, m, key);
  }

  lemma PlainAgrees(w: World, d: World, l: nat, key: string, cell: Cell, m: nat, k: string)
    requires Mirrors(w, d) && l < |w.lines| && m < |w.lines| && UserKey(key) && UserKey(k) && !cell.Mutable?
    requires NoMutableBelow(w, l, key)
    ensures Tree(Write(w, l, key, cell)) && Tree(Write(d, l, key, cell))
    ensures AgreeAt(Write(w, l, key, cell), Write(d, l, key, cell), m, k)
  {
    TwinsAt(w, d, m, k);
    StackWritten(w, l, key, cell, m);
    StackWritten(d, l, key, cell, m);
    if l in w.lines[m] {
      var s, i := StackOf(w, m), |w.lines[l]| - 1;
      InLine(w, l, m);
      forall j | i < j < |s| ensures !OnlyMutable(s[j], key) {
        BelowInLine(w, l, m, j);
      }
      PlainThroughStack(s, StackOf(d, m), i, key, cell, k);
    }
  }

  lemma BelowInLine(w: World, l: nat, m: nat, j: nat)
    requires Tree(w) && m < |w.lines| && l in w.lines[m] && |w.lines[l]| <= j < |w.lines[m]|
    ensures Below(w, l, w.lines[m][j])
  {
    InLine(w, l, m);
    assert LineOk(w.lines, m);
    var line := w.lines[w.lines[m][j]];
    assert line == w.lines[m][..j + 1];
    assert line[|w.lines[l]| - 1] == l;
  }

  lemma MutableAgrees(w: World, d: World, l: nat, key: string, c: seq<int>, m: nat, k: string)
    requires Mirrors(w, d) && l < |w.lines| && m < |w.lines| && UserKey(key) && UserKey(k)
    requires Attribute(StackOf(w, l), key).None?
    ensures Tree(Write(w, l, MutableName(key), Mutable(c))) && Tree(Write(d, l, key, Mutable(c)))
    ensures AgreeAt(Write(w, l, MutableName(key), Mutable(c)), Write(d, l, key, Mutable(c)), m, k)
  {
    hide Mirrors, Twins, View, Look, StackOf, UserKey, Written, ProperLayer, Matches, MutableName, Attribute;
    TwinsAt(w, d, m, k);
    StackWritten(w, l, MutableName(key), Mutable(c), m);
    StackWritten(d, l, key, Mutable(c), m);
    if l in w.lines[m] {
      MutableThroughStack(StackOf(w, m), StackOf(d, m), |w.lines[l]| - 1, key, c, k);
    }
  }

  lemma OwnWritten(layer: Layer, own: Layer, key: string, cell: Cell)
    requires ProperLayer(layer) && UserKey(key) && forall k :: UserKey(k) ==> Matches(layer, own, k)
    requires cell.Mutable? ==> key !in layer
    ensures var after := layer[if cell.Mutable? then MutableName(key) else key := cell];
            ProperLayer(after) && forall k :: UserKey(k) ==> Matches(after, own[key := cell], k)
  {
    MutableNameApart(key);
    var after := layer[if cell.Mutable? then MutableName(key) else key := cell];
    forall k | UserKey(k) ensures Matches(after, own[key := cell], k) {
      assert Matches(layer, own, k);
      MutableNameApart(k);
      MutableNameInjective(k, key);
    }
  }

  /** After agreeing writes to one level of both trees. */
  lemma StillMirrors(w: World, d: World, l: nat, x: Layer, y: Layer)
    requires Mirrors(w, d) && l < |w.lines| && ProperLayer(x)
    requires forall key :: UserKey(key) ==> Matches(x, y, key)
    requires Agree(w.(layers := w.layers[l := x]), d.(layers := d.layers[l := y]))
    ensures Mirrors(w.(layers := w.layers[l := x]), d.(layers := d.layers[l := y]))
  {
    hide Matches, ProperLayer, UserKey, AgreeAt;
  }

  lemma PlainMirrors(w: World, d: World, l: nat, key: string, cell: Cell)
    requires Mirrors(w, d) && l < |w.lines| && UserKey(key) && !cell.Mutable? && NoMutableBelow(w, l, key)
    ensures Mirrors(Write(w, l, key, cell), Write(d, l, key, cell))
  {
    hide Matches, ProperLayer, UserKey, AgreeAt, NoMutableBelow, StackOf;
    StackWritten(w, l, key, cell, l);
    StackWritten(d, l, key, cell, l);
    var w1, d1 := Write(w, l, key, cell), Write(d, l, key, cell);
    forall m, k | 0 <= m < |w1.lines| && UserKey(k) ensures AgreeAt(w1, d1, m, k) {
      PlainAgrees(w, d, l, key, cell, m, k);
    }
    OwnWritten(w.layers[l], d.layers[l], key, cell);
    StillMirrors(w, d, l, w.layers[l][key := cell], d.layers[l][key := cell]);
  }

  lemma NotInOwn(w: World, l: nat, key: string)
    requires Tree(w) && l < |w.lines| && Attribute(StackOf(w, l), key).None?
    ensures key !in w.layers[l]
  {
    NoneAnywhere(StackOf(w, l), key);
    assert LineOk(w.lines, l);
    assert StackOf(w, l)[|w.lines[l]| - 1] == w.layers[l];
  }

  lemma MutableMirrors(w: World, d: World, l: nat, key: string, c: seq<int>)
    requires Mirrors(w, d) && l < |w.lines| && UserKey(key) && Attribute(StackOf(w, l), key).None?
    ensures Mirrors(Write(w, l, MutableName(key), Mutable(c)), Write(d, l, key, Mutable(c)))
  {
    hide Matches, ProperLayer, UserKey, AgreeAt, StackOf, Attribute, MutableName;
    StackWritten(w, l, MutableName(key), Mutable(c), l);
    StackWritten(d, l, key, Mutable(c), l);
    var w1, d1 := Write(w, l, MutableName(key), Mutable(c)), Write(d, l, key, Mutable(c));
    forall m, k | 0 <= m < |w1.lines| && UserKey(k) ensures AgreeAt(w1, d1, m, k) {
      MutableAgrees(w, d, l, key, c, m, k);
    }
    NotInOwn(w, l, key);
    OwnWritten(w.layers[l], d.layers[l], key, Mutable(c));
    StillMirrors(w, d, l, w.layers[l][MutableName(key) := Mutable(c)], d.layers[l][key := Mutable(c)]);
  }

  lemma GrownStack(w: World, l: nat, m: nat)
    requires Tree(w) && l < |w.lines| && m <= |w.lines|
    ensures Tree(Grown(w, l))
    ensures StackOf(Grown(w, l), m) == if m < |w.lines| then StackOf(w, m) else StackOf(w, l) + [map[]]
  {
    var v, n := Grown(w, l), |w.lines|;
    forall i | 0 <= i < |v.lines| ensures LineOk(v.lines, i) {
      if i < n {
        assert LineOk(w.lines, i);
      } else {
        assert LineOk(w.lines, l);
        assert v.lines[n][..|w.lines[l]| + 1] == v.lines[n];
        forall k | 0 <= k < |v.lines[n]| ensures v.lines[v.lines[n][k]] == v.lines[n][..k + 1] {
          assert k < |w.lines[l]| ==> v.lines[n][..k + 1] == w.lines[l][..k + 1];
        }
      }
    }
  }

  lemma EmptyOnTop(layers: seq<Layer>, key: string)
    ensures View(layers + [map[]], key) == View(layers, key) && Look(layers + [map[]], key) == Look(layers, key)
  {
    assert (layers + [map[]])[..|layers|] == layers;
  }

  lemma GrownMirrors(w: World, d: World, l: nat)
    requires Mirrors(w, d) && l < |w.lines|
    ensures Mirrors(Grown(w, l), Grown(d, l))
  {
    var w1, d1 := Grown(w, l), Grown(d, l);
    GrownStack(w, l, l);
    GrownStack(d, l, l);
    forall m, k | 0 <= m < |w1.lines| && UserKey(k) ensures AgreeAt(w1, d1, m, k) {
      GrownStack(w, l, m);
      GrownStack(d, l, m);
      if m < |w.lines| {
        assert AgreeAt(w, d, m, k);
      } else {
        assert AgreeAt(w, d, l, k);
        EmptyOnTop(StackOf(w, l), k);
        EmptyOnTop(StackOf(d, l), k);
      }
    }
  }

  lemma StrictlyBelow(w: World, l: nat, m: nat)
    requires Tree(w) && Below(w, l, m)
    ensures l < |w.lines| && 0 < |w.lines[l]| < |w.lines[m]|
    ensures StackOf(w, m)[|w.lines[m]| - 1] == w.layers[m]
  {
    InLine(w, l, m);
    assert LineOk(w.lines, m);
  }

  lemma PlainDisagrees(w: World, d: World, l: nat, key: string, cell: Cell)
    requires Mirrors(w, d) && l < |w.lines| && UserKey(key) && !cell.Mutable? && !NoMutableBelow(w, l, key)
    ensures !Agree(Write(w, l, key, cell), Write(d, l, key, cell))
  {
    hide Mirrors, OnlyMutable, Twins, View, Look, StackOf, UserKey, Written, ProperLayer, Matches;
    TwinsAt(w, d, l, key);
    var m :| 0 <= m < |w.lines| && Below(w, l, m) && OnlyMutable(w.layers[m], key);
    TwinsAt(w, d, m, key);
    StackWritten(w, l, key, cell, m);
    StackWritten(d, l, key, cell, m);
    StrictlyBelow(w, l, m);
    PlainHides(StackOf(w, m), StackOf(d, m), |w.lines[l]| - 1, key, cell);
    assert !AgreeAt(Write(w, l, key, cell), Write(d, l, key, cell), m, key);
  }

  lemma MutableDisagrees(w: World, d: World, l: nat, key: string, c: seq<int>)
    requires Mirrors(w, d) && l < |w.lines| && UserKey(key) && Attribute(StackOf(w, l), key).Some?
    ensures !Agree(Write(w, l, MutableName(key), Mutable(c)), Write(d, l, key, Mutable(c)))
  {
    hide Mirrors, Twins, View, Look, StackOf, UserKey, Written, ProperLayer, Matches, MutableName, Attribute;
    TwinsAt(w, d, l, key);
    assert LineOk(w.lines, l);
    StackWritten(w, l, MutableName(key), Mutable(c), l);
    StackWritten(d, l, key, Mutable(c), l);
    MutableHidden(StackOf(w, l), StackOf(d, l), key, c);
    assert !AgreeAt(Write(w, l, MutableName(key), Mutable(c)), Write(d, l, key, Mutable(c)), l, key);
  }

  /** A call leaves every lookup as in ordinary dictionaries, exactly if it is careful. */
  lemma StepAgreesIff(w: World, d: World, op: Op)
    requires Mirrors(w, d) && Fits(w, op)
    ensures Fits(d, op) && (Agree(Step(w, op), Expected(d, op)) <==> Careful(w, op))
    ensures Careful(w, op) ==> Mirrors(Step(w, op), Expected(d, op))
  {
    match op {
      case Cow(l) => GrownMirrors(w, d, l);
      case Put(l, key, v) => PlainStep(w, d, l, key, Plain(v));
      case Del(l, key) => PlainStep(w, d, l, key, Marker);
      case PutMutable(l, key, c) =>
        if Careful(w, op) { MutableMirrors(w, d, l, key, c); } else { MutableDisagrees(w, d, l, key, c); }
      case Change(l, key, c) =>
        TwinsAt(w, d, l, key);
        if View(StackOf(w, l), key).Contents? {
          ContentsMeanNone(StackOf(w, l), key);
          MutableMirrors(w, d, l, key, c);
        }
    }
  }

  lemma PlainStep(w: World, d: World, l: nat, key: string, cell: Cell)
    requires Mirrors(w, d) && l < |w.lines| && UserKey(key) && !cell.Mutable?
    ensures Agree(Write(w, l, key, cell), Write(d, l, key, cell)) <==> NoMutableBelow(w, l, key)
    ensures NoMutableBelow(w, l, key) ==> Mirrors(Write(w, l, key, cell), Write(d, l, key, cell))
  {
    if NoMutableBelow(w, l, key) { PlainMirrors(w, d, l, key, cell); } else { PlainDisagrees(w, d, l, key, cell); }
  }

  // ---- whole runs ----

  /** One empty level. */
  function Root(): World { World([[0]], [map[]]) }

  /** Every call is on a level that exists then. */
  predicate IsRun(w: World, ops: seq<Op>)
    decreases |ops|
  {
    ops == [] || (Fits(w, ops[0]) && IsRun(Step(w, ops[0]), ops[1..]))
  }

  function Run(w: World, ops: seq<Op>): World
    requires IsRun(w, ops)
    decreases |ops|
  {
    if ops == [] then w else Run(Step(w, ops[0]), ops[1..])
  }

  /** After every call of the run, every lookup is as in the ordinary dictionaries. */
  ghost predicate AgreeThroughout(w: World, d: World, ops: seq<Op>)
    requires IsRun(w, ops)
    decreases |ops|
  {
    && Agree(w, d)
    && (ops == [] || (Fits(d, ops[0]) && AgreeThroughout(Step(w, ops[0]), Expected(d, ops[0]), ops[1..])))
  }

  predicate AllCareful(w: World, ops: seq<Op>)
    requires IsRun(w, ops)
    decreases |ops|
  {
    ops == [] || (Careful(w, ops[0]) && AllCareful(Step(w, ops[0]), ops[1..]))
  }

  lemma {:induction false} RunFromMirror(w: World, d: World, ops: seq<Op>)
    requires Mirrors(w, d) && IsRun(w, ops)
    ensures AgreeThroughout(w, d, ops) <==> AllCareful(w, ops)
    decreases |ops|
  {
    if ops != [] {
      StepAgreesIff(w, d, ops[0]);
      if Careful(w, ops[0]) {
        RunFromMirror(Step(w, ops[0]), Expected(d, ops[0]), ops[1..]);
      }
    }
  }

  lemma RootMirrors()
    ensures Mirrors(Root(), Root())
  {
    assert StackOf(Root(), 0) == [map[]];
    forall m, key | 0 <= m < 1 && UserKey(key) ensures AgreeAt(Root(), Root(), m, key) {
      EmptyOnTop([], key);
    }
  }

  /** From one empty level on, lookups are at all times those of ordinary dictionaries, exactly if
      every call is careful. */
  lemma RunAgreesIff(ops: seq<Op>)
    requires IsRun(Root(), ops)
    ensures AgreeThroughout(Root(), Root(), ops) <==> AllCareful(Root(), ops)
  {
    RootMirrors();
    RunFromMirror(Root(), Root(), ops);
  }

  lemma FirstOp(w: World, op: Op, rest: seq<Op>)
    requires Fits(w, op) && IsRun(Step(w, op), rest)
    ensures IsRun(w, [op] + rest) && Run(w, [op] + rest) == Run(Step(w, op), rest)
    ensures AllCareful(w, [op] + rest) <==> Careful(w, op) && AllCareful(Step(w, op), rest)
  {
    hide Fits, Step, Careful;
    assert ([op] + rest)[1..] == rest;
  }

  /** A mutable value of a level can no longer be looked up there once an ancestor deletes its key. */
  lemma DeletingAboveHides(key: string, contents: seq<int>)
    requires UserKey(key)
    ensures var ops := [Cow(0)] + ([PutMutable(1, key, contents)] + ([Del(0, key)] + []));
            var layers := [map[key := Marker], map[key + "__mutable__" := Mutable(contents)]];
            && IsRun(Root(), ops) && Run(Root(), ops) == World([[0], [0, 1]], layers)
            && !AgreeThroughout(Root(), Root(), ops) && View(layers, key) == Absent
  {
    var lines, mutable := [[0], [0, 1]], map[MutableName(key) := Mutable(contents)];
    var w1, w2 := World(lines, [map[], map[]]), World(lines, [map[], mutable]);
    var w3 := World(lines, [map[key := Marker], mutable]);
    ThreeSteps(key, contents, w1, w2, w3);
    hide *;
    FirstOp(w2, Del(0, key), []);
    FirstOp(w1, PutMutable(1, key, contents), [Del(0, key)] + []);
    FirstOp(Root(), Cow(0), [PutMutable(1, key, contents)] + ([Del(0, key)] + []));
    RunAgreesIff([Cow(0)] + ([PutMutable(1, key, contents)] + ([Del(0, key)] + [])));
  }

  lemma ThreeSteps(key: string, contents: seq<int>, w1: World, w2: World, w3: World)
    requires UserKey(key)
    requires var mutable := map[MutableName(key) := Mutable(contents)];
             && w1 == World([[0], [0, 1]], [map[], map[]]) && w2 == World([[0], [0, 1]], [map[], mutable])
             && w3 == World([[0], [0, 1]], [map[key := Marker], mutable])
    ensures Fits(Root(), Cow(0)) && Step(Root(), Cow(0)) == w1
    ensures Fits(w1, PutMutable(1, key, contents)) && Step(w1, PutMutable(1, key, contents)) == w2
    ensures Fits(w2, Del(0, key)) && Step(w2, Del(0, key)) == w3 && !Careful(w2, Del(0, key))
    ensures IsRun(w3, []) && Run(w3, []) == w3 && View(w3.layers, key) == Absent
  {
    hide Attribute, View, UserKey, MutableName, Careful, LineOk, Tree, Grown;
    RootGrown();
    TwoLevels(w1);
    TwoLevels(w2);
    MutableNameApart(key);
    NotCareful(w2, key);
    DeletionSeen(w3.layers, key);
  }

  lemma RootGrown()
    ensures Tree(Root()) && Grown(Root(), 0) == World([[0], [0, 1]], [map[], map[]])
  {
    var line: seq<nat> := [0];
    assert line + [1] == [0, 1];
    assert Grown(Root(), 0).lines == [line] + [line + [1]];
  }

  lemma TwoLevels(w: World)
    requires w.lines == [[0], [0, 1]] && |w.layers| == 2
    ensures Tree(w)
  {
    assert LineOk(w.lines, 0);
    assert w.lines[1][..1] == w.lines[0] && w.lines[1][..2] == w.lines[1];
  }

  lemma NotCareful(w: World, key: string)
    requires Fits(w, Del(0, key)) && w.lines == [[0], [0, 1]] && OnlyMutable(w.layers[1], key)
    ensures !Careful(w, Del(0, key))
  {
    assert Below(w, 0, 1);
  }

  lemma DeletionSeen(layers: seq<Layer>, key: string)
    requires |layers| == 2 && key in layers[0] && layers[0][key] == Marker && key !in layers[1]
    ensures View(layers, key) == Absent
  {
    assert layers[..1] == [layers[0]];
    assert Attribute([layers[0]], key) == Some(Marker);
  }
}
