/** poky/bitbake/lib/bb/COW.py as values: what lookups see through a stack of class dictionaries.
    The classes themselves are in `CowDict`. */
module CowLayers {
  import opened Lists
  import opened Wrappers

  const MUTABLE := "__mutable__"

  /** A class attribute: an immutable value, the deletion marker, or the contents of a mutable value. */
  datatype Cell = Plain(value: int) | Marker | Mutable(contents: seq<int>)

  /** One class dictionary; mutable values are kept under the key with a suffix. */
  type Layer = map<string, Cell>

  function MutableName(key: string): string { key + MUTABLE }

  predicate IsMutableName(name: string) {
    |name| >= |MUTABLE| && name[|name| - |MUTABLE|..] == MUTABLE
  }

  /** Keys that do not collide with the suffix, with names that iteration skips, or with the
      methods of the metaclass. */
  predicate UserKey(key: string) {
    && !IsMutableName(key) && !("__" <= key) && !("__" <= MutableName(key))
    && key !in {"cow", "copy", "has_key", "iter", "iterkeys", "itervalues", "iteritems", "mro"}
  }

  lemma MutableNameApart(key: string)
    ensures IsMutableName(MutableName(key)) && MutableName(key)[..|key|] == key
    ensures MutableName(key) != key
  {
  }

  lemma MutableNameInjective(a: string, b: string)
    ensures MutableName(a) == MutableName(b) <==> a == b
  {
    MutableNameApart(a);
    MutableNameApart(b);
  }

  /** A layer as the operations leave it: the suffix marks exactly the mutable values. */
  predicate ProperLayer(layer: Layer) {
    forall n :: n in layer ==>
      if IsMutableName(n) then layer[n].Mutable? && UserKey(n[..|n| - |MUTABLE|])
      else !layer[n].Mutable? && UserKey(n)
  }

  /** `getattr`: the nearest layer that has the name (the last of the list is the class itself). */
  function Attribute(layers: seq<Layer>, name: string): Option<Cell> {
    if layers == [] then None
    else if name in layers[|layers| - 1] then Some(layers[|layers| - 1][name])
    else Attribute(layers[..|layers| - 1], name)
  }

  datatype Seen = Absent | Value(value: int) | Contents(contents: seq<int>)

  function AsSeen(c: Cell): Seen {
    match c case Plain(v) => Value(v) case Marker => Absent case Mutable(s) => Contents(s)
  }

  /** What `d[key]` yields, `Absent` standing for a KeyError. */
  function View(layers: seq<Layer>, key: string): Seen {
    match Attribute(layers, key)
    case Some(c) => AsSeen(c)
    case None =>
      match Attribute(layers, MutableName(key))
      case Some(c) => AsSeen(c)
      case None => Absent
  }

  ghost predicate SameViews(a: seq<Layer>, b: seq<Layer>) {
    forall k :: UserKey(k) ==> View(a, k) == View(b, k)
  }

  lemma SameViewsSelf(layers: seq<Layer>)
    ensures SameViews(layers, layers)
  {
  }

  // ---- the reading that is promised: local entries over the parent's view ----

  /** A layer's own entry for a key; an immutable entry hides a mutable one. */
  function Own(layer: Layer, key: string): Option<Cell> {
    if key in layer then Some(layer[key])
    else if MutableName(key) in layer then Some(layer[MutableName(key)])
    else None
  }

  /** The parent's view, overridden by the own entry. */
  function Overlay(layers: seq<Layer>, key: string): Seen {
    if layers == [] then Absent
    else match Own(layers[|layers| - 1], key)
      case Some(c) => AsSeen(c)
      case None => Overlay(layers[..|layers| - 1], key)
  }

  /** The nearest layer with an entry for the key has a mutable one, but an ancestor of that layer
      has an immutable entry or a deletion. */
  predicate Shadowed(layers: seq<Layer>, key: string) {
    if layers == [] || key in layers[|layers| - 1] then false
    else if MutableName(key) in layers[|layers| - 1] then Attribute(layers[..|layers| - 1], key).Some?
    else Shadowed(layers[..|layers| - 1], key)
  }

  ghost predicate ProperLayers(layers: seq<Layer>) {
    forall i :: 0 <= i < |layers| ==> ProperLayer(layers[i])
  }

  lemma {:induction false} CellKind(layers: seq<Layer>, name: string)
    requires ProperLayers(layers) && Attribute(layers, name).Some?
    ensures Attribute(layers, name).value.Mutable? <==> IsMutableName(name)
  {
    if name in layers[|layers| - 1] {
      assert ProperLayer(layers[|layers| - 1]);
    } else {
      CellKind(layers[..|layers| - 1], name);
    }
  }

  /** A lookup is the parent's view overridden by local writes and deletions, exactly unless a
      mutable value was set below an immutable value or a deletion of the same key. */
  lemma {:induction false} ViewIsOverlayIff(layers: seq<Layer>, key: string)
    requires UserKey(key) && ProperLayers(layers)
    ensures View(layers, key) == Overlay(layers, key) <==> !Shadowed(layers, key)
  {
    if layers != [] {
      var front, own := layers[..|layers| - 1], layers[|layers| - 1];
      assert ProperLayer(own);
      MutableNameApart(key);
      if key !in own {
        if MutableName(key) in own {
          if Attribute(front, key).Some? {
            CellKind(front, key);
          }
        } else {
          ViewIsOverlayIff(front, key);
        }
      }
    }
  }

  // ---- what a write at one level changes for the levels of its stack ----

  function Written(layers: seq<Layer>, i: nat, name: string, cell: Cell): seq<Layer>
    requires i < |layers|
  {
    layers[i := layers[i][name := cell]]
  }

  lemma WrittenTwice(layers: seq<Layer>, i: nat, name: string, c: Cell, d: Cell)
    requires i < |layers|
    ensures Written(Written(layers, i, name, c), i, name, d) == Written(layers, i, name, d)
  {
    assert layers[i][name := c][name := d] == layers[i][name := d];
  }

  /** A layer nearer than `i` has its own attribute. */
  predicate HasNearer(layers: seq<Layer>, i: nat, name: string)
    requires i < |layers|
  {
    exists j :: i < j < |layers| && name in layers[j]
  }

  lemma {:induction false} AttributeAfterWrite(layers: seq<Layer>, i: nat, name: string, cell: Cell, n: string)
    requires i < |layers|
    ensures Attribute(Written(layers, i, name, cell), n) ==
      if n == name && !HasNearer(layers, i, name) then Some(cell) else Attribute(layers, n)
  {
    var last := |layers| - 1;
    if i < last {
      assert Written(layers, i, name, cell)[..last] == Written(layers[..last], i, name, cell);
      AttributeAfterWrite(layers[..last], i, name, cell, n);
      assert HasNearer(layers, i, name) <==> name in layers[last] || HasNearer(layers[..last], i, name) by {
        if HasNearer(layers[..last], i, name) {
          var j :| i < j < last && name in layers[..last][j];
          assert name in layers[j];
        }
        if HasNearer(layers, i, name) && name !in layers[last] {
          var j :| i < j < |layers| && name in layers[j];
          assert name in layers[..last][j];
        }
      }
    } else {
      assert Written(layers, i, name, cell)[..last] == layers[..last];
    }
  }

  /** Writing an immutable value or a deletion: seen by this level, and below it unless a nearer
      level has an immutable entry of its own; other keys are unaffected. */
  lemma PlainWriteSeen(layers: seq<Layer>, i: nat, key: string, cell: Cell, k: string)
    requires i < |layers| && UserKey(key) && UserKey(k) && !cell.Mutable?
    ensures View(Written(layers, i, key, cell), k) ==
      if k == key && !HasNearer(layers, i, key) then AsSeen(cell) else View(layers, k)
  {
    MutableNameApart(k);
    AttributeAfterWrite(layers, i, key, cell, k);
    AttributeAfterWrite(layers, i, key, cell, MutableName(k));
  }

  /** Writing a mutable value: seen only where no immutable entry or deletion of the key is in the
      stack at all, and no nearer level has a mutable entry of its own. */
  lemma MutableWriteSeen(layers: seq<Layer>, i: nat, key: string, contents: seq<int>, k: string)
    requires i < |layers| && UserKey(key) && UserKey(k)
    ensures View(Written(layers, i, MutableName(key), Mutable(contents)), k) ==
      if k == key && Attribute(layers, key).None? && !HasNearer(layers, i, MutableName(key))
      then Contents(contents) else View(layers, k)
  {
    MutableNameApart(k);
    MutableNameApart(key);
    MutableNameInjective(k, key);
    AttributeAfterWrite(layers, i, MutableName(key), Mutable(contents), k);
    AttributeAfterWrite(layers, i, MutableName(key), Mutable(contents), MutableName(k));
  }

  /** A mutable value set again after a deletion stays invisible. */
  lemma ReSetAfterDeleteIsLost(layers: seq<Layer>, key: string, contents: seq<int>)
    requires layers != [] && UserKey(key)
    ensures var i := |layers| - 1;
            View(Written(Written(layers, i, key, Marker), i, MutableName(key), Mutable(contents)), key) == Absent
  {
  }

  /** A level copying the mutable value it sees into its own layer changes nothing for anyone. */
  lemma CopyIsInvisible(layers: seq<Layer>, i: nat, key: string, contents: seq<int>, k: string)
    requires i < |layers| && UserKey(key) && UserKey(k) && ProperLayers(layers)
    requires View(layers[..i + 1], key) == Contents(contents)
    ensures View(Written(layers, i, MutableName(key), Mutable(contents)), k) == View(layers, k)
  {
    MutableWriteSeen(layers, i, key, contents, k);
    if k == key && Attribute(layers, key).None? && !HasNearer(layers, i, MutableName(key)) {
      var nkey := MutableName(key);
      NoneBelow(layers, i + 1, key);
      SameAbove(layers, i, nkey);
    }
  }

  lemma CopyKeepsViews(layers: seq<Layer>, i: nat, key: string, contents: seq<int>)
    requires i < |layers| && UserKey(key) && ProperLayers(layers)
    requires View(layers[..i + 1], key) == Contents(contents)
    ensures SameViews(Written(layers, i, MutableName(key), Mutable(contents)), layers)
  {
    forall k | UserKey(k) ensures View(Written(layers, i, MutableName(key), Mutable(contents)), k) == View(layers, k) {
      CopyIsInvisible(layers, i, key, contents, k);
    }
  }

  lemma {:induction false} NoneBelow(layers: seq<Layer>, n: nat, name: string)
    requires n <= |layers| && Attribute(layers, name).None?
    ensures Attribute(layers[..n], name).None?
  {
    if n < |layers| {
      NoneBelow(layers[..|layers| - 1], n, name);
      assert layers[..|layers| - 1][..n] == layers[..n];
    } else {
      assert layers[..n] == layers;
    }
  }

  lemma {:induction false} SameAbove(layers: seq<Layer>, i: nat, name: string)
    requires i < |layers| && !HasNearer(layers, i, name)
    ensures Attribute(layers, name) == Attribute(layers[..i + 1], name)
  {
    var last := |layers| - 1;
    if i < last {
      assert name !in layers[last];
      assert forall j :: i < j < last ==> layers[..last][j] == layers[j];
      SameAbove(layers[..last], i, name);
      assert layers[..last][..i + 1] == layers[..i + 1];
    } else {
      assert layers[..i + 1] == layers;
    }
  }

  // ---- iteration ----

  /** The key that an attribute name stands for. */
  function KeyOf(name: string): string {
    if IsMutableName(name) then name[..|name| - |MUTABLE|] else name
  }

  /** `iter("items", readonly=True)` over the attribute names in the given order. */
  function Items(layers: seq<Layer>, names: seq<string>): seq<(string, Seen)> {
    if names == [] then []
    else
      var front, name := Items(layers, names[..|names| - 1]), names[|names| - 1];
      if "__" <= name || View(layers, KeyOf(name)).Absent? then front
      else front + [(KeyOf(name), View(layers, KeyOf(name)))]
  }

  lemma ItemsGrow(layers: seq<Layer>, names: seq<string>, i: nat)
    requires i < |names|
    ensures Items(layers, names[..i + 1]) == Items(layers, names[..i]) +
      if "__" <= names[i] || View(layers, KeyOf(names[i])).Absent? then []
      else [(KeyOf(names[i]), View(layers, KeyOf(names[i])))]
  {
    assert names[..i + 1][..i] == names[..i];
  }

  /** `dir`: all attribute names of the stack. */
  ghost function Names(layers: seq<Layer>): set<string> {
    if layers == [] then {} else Names(layers[..|layers| - 1]) + layers[|layers| - 1].Keys
  }

  lemma {:induction false} NamesAre(layers: seq<Layer>, name: string)
    ensures name in Names(layers) <==> Attribute(layers, name).Some?
  {
    if layers != [] {
      NamesAre(layers[..|layers| - 1], name);
    }
  }

  lemma OwnNameProper(own: Layer, name: string)
    requires ProperLayer(own) && name in own
    ensures UserKey(KeyOf(name)) && (name == KeyOf(name) || name == MutableName(KeyOf(name)))
    ensures !("__" <= name)
  {
    if IsMutableName(name) {
      SuffixBack(name);
      hide IsMutableName, MutableName;
    } else {
      hide IsMutableName, MutableName;
    }
  }

  lemma SuffixBack(name: string)
    requires IsMutableName(name)
    ensures MutableName(name[..|name| - |MUTABLE|]) == name
  {
  }

  lemma {:induction false} NamesAreProper(layers: seq<Layer>, name: string)
    requires ProperLayers(layers) && name in Names(layers)
    ensures UserKey(KeyOf(name)) && (name == KeyOf(name) || name == MutableName(KeyOf(name)))
    ensures !("__" <= name)
  {
    hide ProperLayer, UserKey, KeyOf, MutableName;
    var front, own := layers[..|layers| - 1], layers[|layers| - 1];
    assert ProperLayer(own);
    if name in own {
      OwnNameProper(own, name);
    } else {
      NamesAreProper(front, name);
    }
  }

  ghost predicate Listed(items: seq<(string, Seen)>, key: string) {
    exists i :: 0 <= i < |items| && items[i].0 == key
  }

  lemma ListedAppended(items: seq<(string, Seen)>, item: (string, Seen), key: string)
    ensures Listed(items + [item], key) <==> Listed(items, key) || item.0 == key
  {
    var all := items + [item];
    if Listed(items, key) {
      var i :| 0 <= i < |items| && items[i].0 == key;
      assert all[i].0 == key;
    }
    assert all[|items|] == item;
  }

  /** Some attribute name stands for the key. */
  ghost predicate Named(names: seq<string>, key: string) {
    exists n :: n in names && KeyOf(n) == key
  }

  lemma NamedAppended(names: seq<string>, last: nat, key: string)
    requires last + 1 == |names|
    ensures Named(names, key) <==> Named(names[..last], key) || KeyOf(names[last]) == key
  {
  }

  /** No attribute name of the list is one that iteration skips. */
  ghost predicate NoneSkipped(names: seq<string>) {
    forall n :: n in names ==> !("__" <= n)
  }

  lemma {:induction false} ItemsAre(layers: seq<Layer>, names: seq<string>, key: string)
    requires NoneSkipped(names)
    ensures Listed(Items(layers, names), key) <==> View(layers, key) != Absent && Named(names, key)
  {
    if names != [] {
      var last := |names| - 1;
      var front, item := Items(layers, names[..last]), (KeyOf(names[last]), View(layers, KeyOf(names[last])));
      PrefixGrows(names, last);
      assert names[..last + 1] == names;
      ItemsAre(layers, names[..last], key);
      NamedAppended(names, last, key);
      ListedAppended(front, item, key);
    }
  }

  lemma {:induction false} ItemValues(layers: seq<Layer>, names: seq<string>, i: nat)
    requires i < |Items(layers, names)|
    ensures Items(layers, names)[i].1 == View(layers, Items(layers, names)[i].0) != Absent
  {
    var front := Items(layers, names[..|names| - 1]);
    if i < |front| {
      ItemValues(layers, names[..|names| - 1], i);
    }
  }

  lemma AllNamesProper(layers: seq<Layer>, names: seq<string>)
    requires ProperLayers(layers) && Elements(names) == Names(layers)
    ensures NoneSkipped(names) && forall n :: n in names ==> n in Names(layers)
  {
    forall n | n in names ensures n in Names(layers) && !("__" <= n) {
      assert n in Elements(names);
      NamesAreProper(layers, n);
    }
  }

  /** Iterating lists exactly the live keys (each with what a lookup yields, by `ItemValues`). */
  lemma ItemsAreLive(layers: seq<Layer>, names: seq<string>, key: string)
    requires ProperLayers(layers) && Elements(names) == Names(layers) && UserKey(key)
    ensures Listed(Items(layers, names), key) <==> View(layers, key) != Absent
  {
    AllNamesProper(layers, names);
    ItemsAre(layers, names, key);
    if View(layers, key) != Absent {
      NamesAre(layers, key);
      NamesAre(layers, MutableName(key));
      MutableNameApart(key);
      var n := if Attribute(layers, key).Some? then key else MutableName(key);
      assert n in Elements(names) && KeyOf(n) == key;
    }
  }

  /** A live key that the stack has both an immutable and a mutable entry for. */
  ghost predicate TwoKinds(layers: seq<Layer>, key: string) {
    UserKey(key) && View(layers, key) != Absent && key in Names(layers) && MutableName(key) in Names(layers)
  }

  ghost predicate ListedOnce(items: seq<(string, Seen)>) {
    forall i, j :: 0 <= i < j < |items| ==> items[i].0 != items[j].0
  }

  /** ... and lists each of them once, exactly if no live key has entries of both kinds. */
  lemma ItemsListedOnceIff(layers: seq<Layer>, names: seq<string>)
    requires ProperLayers(layers) && Elements(names) == Names(layers) && NoDuplicates(names)
    ensures ListedOnce(Items(layers, names)) <==> forall key :: !TwoKinds(layers, key)
  {
    AllNamesProper(layers, names);
    OnceIff(layers, names);
    if key :| TwoKinds(layers, key) {
      MutableNameApart(key);
      assert key in Elements(names) && MutableName(key) in Elements(names);
      assert KeyOf(key) == key && KeyOf(MutableName(key)) == key;
      assert Clash(layers, key, MutableName(key));
    }
    if m, n :| m in names && n in names && Clash(layers, m, n) {
      NamesAreProper(layers, m);
      NamesAreProper(layers, n);
      assert TwoKinds(layers, KeyOf(m));
    }
  }

  /** Two attribute names that both stand for one live key. */
  ghost predicate Clash(layers: seq<Layer>, m: string, n: string) {
    m != n && KeyOf(m) == KeyOf(n) && View(layers, KeyOf(m)) != Absent
  }

  lemma {:induction false} OnceIff(layers: seq<Layer>, names: seq<string>)
    requires NoDuplicates(names) && NoneSkipped(names)
    ensures ListedOnce(Items(layers, names)) <==> forall m, n :: m in names && n in names ==> !Clash(layers, m, n)
  {
    if names != [] {
      var last := |names| - 1;
      var name, front := names[last], Items(layers, names[..last]);
      PrefixGrows(names, last);
      assert names[..last + 1] == names;
      assert name in names && name !in names[..last];
      OnceIff(layers, names[..last]);
      if View(layers, KeyOf(name)) != Absent {
        var item := (KeyOf(name), View(layers, KeyOf(name)));
        assert Items(layers, names) == front + [item];
        OnceAppended(front, item);
        ItemsAre(layers, names[..last], KeyOf(name));
        assert Named(names[..last], KeyOf(name)) <==> exists m :: m in names[..last] && Clash(layers, m, name);
      }
    }
  }

  lemma OnceAppended(items: seq<(string, Seen)>, item: (string, Seen))
    ensures ListedOnce(items + [item]) <==> ListedOnce(items) && !Listed(items, item.0)
  {
    var all := items + [item];
    assert forall i :: 0 <= i < |items| ==> all[i] == items[i];
    assert all[|items|] == item;
  }
}
