/** poky/bitbake/lib/bb/COW.py: copy-on-write dictionaries as a tree of classes. Every level holds
    its own attributes; lookups go on in the parent; mutable values are copied on first read. */
module CowDict {
  import opened Lists
  import opened Wrappers
  import opened NameOrder
  import opened CowLayers

  /** A mutable value (a list). */
  class Box {
    var contents: seq<int>

    constructor (contents: seq<int>)
      ensures this.contents == contents
    {
      this.contents := contents;
    }

    method Copy() returns (b: Box)
      ensures fresh(b) && b.contents == contents
    {
      b := new Box(contents);
    }
  }

  datatype Attr = Imm(value: int) | Deleted | Mut(box: Box)

  /** A value handed to `d[key] = value`; None is stored like an immutable value. */
  datatype Item = Immutable(value: int) | MutableItem(box: Box)

  /** What `d[key]` gives back. */
  datatype Got = KeyError | GotValue(value: int) | GotBox(box: Box)

  class Level {
    const parent: Level?
    /** All levels above, the root first. */
    ghost const ancestors: seq<Level>
    var attrs: map<string, Attr>

    constructor Root()
      ensures parent == null && ancestors == [] && attrs == map[]
    {
      parent, ancestors := null, [];
      attrs := map[];
    }

    constructor Child(above: Level)
      ensures parent == above && ancestors == above.Line() && attrs == map[]
    {
      parent, ancestors := above, above.Line();
      attrs := map[];
    }

    /** This level and those above it, the root first. */
    ghost function Line(): seq<Level> { ancestors + [this] }

    /** The levels above are linked as recorded. */
    ghost predicate Linked() {
      forall i :: 0 <= i < |Line()| ==> LinkedAt(i)
    }

    ghost predicate LinkedAt(i: nat)
      requires i < |Line()|
    {
      && Line()[i].ancestors == Line()[..i]
      && Line()[i].parent == if i == 0 then null else Line()[i - 1]
    }

    ghost function Boxes(): set<Box>
      reads this
    {
      BoxesIn(attrs)
    }

    ghost function LineBoxes(): set<Box>
      reads Line()
    {
      set l, b | l in Line() && b in l.Boxes() :: b
    }

    ghost function Layer(): (layer: map<string, Cell>)
      reads this, Boxes()
    {
      LayerOf(attrs)
    }

    /** The stack of layers that lookups at this level go through. */
    ghost function Layers(): (layers: seq<map<string, Cell>>)
      reads Line(), LineBoxes()
      ensures |layers| == |Line()|
    {
      seq(|Line()|, i requires 0 <= i < |Line()| reads Line(), LineBoxes() => Line()[i].Layer())
    }

    lemma ParentLinked()
      requires Linked()
      ensures parent == null <==> ancestors == []
      ensures parent != null ==> parent.Linked() && parent.Line() == ancestors
      ensures parent != null ==> Elements(parent.Line()) <= Elements(Line()) && this in Elements(Line())
    {
      assert LinkedAt(|ancestors|);
      if ancestors != [] {
        var k := |ancestors| - 1;
        assert LinkedAt(k);
        assert parent.Line() == ancestors;
        assert forall l :: l in ancestors ==> l in Line();
        forall i | 0 <= i < |ancestors| ensures parent.LinkedAt(i) {
          assert LinkedAt(i);
          assert Line()[..i] == parent.Line()[..i];
        }
      }
    }

    /** `getattr`: the own attribute, or else the parent's. */
    function GetAttr(n: string): (found: Option<Attr>)
      requires Linked()
      reads Elements(Line())
      ensures found.Some? ==> exists l :: l in Line() && n in l.attrs && l.attrs[n] == found.value
      decreases |ancestors|
    {
      ParentLinked();
      if n in attrs then Some(attrs[n])
      else if parent == null then None
      else parent.GetAttr(n)
    }

    /** The walk up the parents is the lookup in the stack of layers. */
    lemma {:induction false} GetAttrIsAttribute(n: string)
      requires Linked()
      ensures Attribute(Layers(), n) ==
        match GetAttr(n) case None => None case Some(a) => Some(CellOf(a))
      decreases |ancestors|
    {
      ParentLinked();
      var layers := Layers();
      assert layers[|ancestors|] == Layer();
      if n !in attrs {
        if parent != null {
          parent.GetAttrIsAttribute(n);
          assert layers[..|ancestors|] == parent.Layers();
        } else {
          assert layers[..|ancestors|] == [];
        }
      }
    }

    /** The attribute `n` of this level became `a`, and `m` sees just that through its stack. */
    ghost predicate WroteHere(n: string, a: Attr, before: seq<map<string, Cell>>, m: Level)
      reads m.Line(), m.LineBoxes(), if a.Mut? then {a.box} else {}
    {
      m.Layers() == Through(m, n, CellOf(a), before)
    }

    /** `d[key] = value`, and with `Deleted` also `del d[key]`. */
    method SetAttr(n: string, a: Attr, ghost world: set<Level>)
      requires Valid(world) && this in world
      requires ProperAttr(n, a)
      requires OnlyAt(AttrsOf(world), a, this, n)
      modifies `attrs
      ensures attrs == old(attrs)[n := a] && Valid(world)
      ensures forall m :: m in world ==> WroteHere(n, a, old(m.Layers()), m)
    {
      ghost var held := AttrsOf(world);
      ghost var layer := map l | l in world :: l.Layer();
      ghost var stack := map m | m in world :: m.Layers();
      SetKeepsProper(held, this, n, a);
      StoreAttr(n, a, world);
      AttrsAfter(world, held, n, a);
      AllSeenBelow(n, a, world, layer, stack);
    }

    /** `setattr` */
    method StoreAttr(n: string, a: Attr, ghost world: set<Level>)
      requires this in world
      modifies `attrs
      ensures attrs == old(attrs)[n := a]
      ensures forall l :: l in world ==>
        l.Layer() == if l == this then old(l.Layer())[n := CellOf(a)] else old(l.Layer())
    {
      ghost var before := attrs;
      attrs := attrs[n := a];
      LayerSet(before, n, a);
      assert LayerOf(before) == old(LayerOf(attrs));
      forall l | l in world && l != this ensures l.Layer() == old(l.Layer()) {
        assert LayerOf(l.attrs) == old(LayerOf(l.attrs));
      }
    }

    lemma AttrsAfter(world: set<Level>, held: Attrs, n: string, a: Attr)
      requires this in world && held.Keys == world
      requires forall l :: l in world ==> l.attrs == if l == this then held[l][n := a] else held[l]
      ensures AttrsOf(world) == held[this := held[this][n := a]]
    {
    }

    method SetItem(key: string, item: Item, ghost world: set<Level>)
      requires Valid(world) && this in world && UserKey(key)
      requires OnlyAt(AttrsOf(world), AttrFor(item), this, NameFor(key, item))
      modifies `attrs
      ensures attrs == old(attrs)[NameFor(key, item) := AttrFor(item)] && Valid(world)
      ensures forall m :: m in world ==> WroteHere(NameFor(key, item), AttrFor(item), old(m.Layers()), m)
    {
      MutableNameApart(key);
      SetAttr(NameFor(key, item), AttrFor(item), world);
    }

    method DelItem(key: string, ghost world: set<Level>)
      requires Valid(world) && this in world && UserKey(key)
      modifies `attrs
      ensures attrs == old(attrs)[key := Deleted] && Valid(world)
      ensures forall m :: m in world ==> WroteHere(key, Deleted, old(m.Layers()), m)
    {
      SetAttr(key, Deleted, world);
    }

    /** A mutable value found in a parent is copied into this level, unless only reading is promised. */
    method GetMutable(key: string, readonly: bool, ghost world: set<Level>) returns (got: Got)
      requires Valid(world) && this in world && UserKey(key)
      modifies `attrs
      ensures Valid(world)
      ensures got.KeyError? || got.GotBox?
      ensures got.KeyError? ==> Attribute(old(Layers()), MutableName(key)) == None && attrs == old(attrs)
      ensures got.GotBox? ==> Attribute(old(Layers()), MutableName(key)) == Some(Mutable(got.box.contents))
      ensures got.GotBox? && readonly ==> attrs == old(attrs)
      ensures got.GotBox? && !readonly ==> attrs == old(attrs)[MutableName(key) := Mut(got.box)]
      ensures got.GotBox? && !readonly ==> fresh(got.box) || got.box in old(Boxes())
      ensures got.GotBox? && !readonly ==>
        forall m :: m in world ==> WroteHere(MutableName(key), Mut(got.box), old(m.Layers()), m)
    {
      MutableNameApart(key);
      var nkey := MutableName(key);
      if nkey in attrs {
        assert ProperAttr(nkey, AttrsOf(world)[this][nkey]);
        got := GotBox(attrs[nkey].box);
        OwnIsFound(this, nkey);
        NothingNew(world, nkey);
        return;
      }
      var value := GetAttr(nkey);
      GetAttrIsAttribute(nkey);
      if value.None? {
        return KeyError;
      }
      ghost var l :| l in Line() && nkey in l.attrs && l.attrs[nkey] == value.value;
      assert l in Elements(Line());
      assert ProperAttr(nkey, AttrsOf(world)[l][nkey]);
      if readonly {
        return GotBox(value.value.box);
      }
      var copy := CopyHere(nkey, value.value.box, world);
      got := GotBox(copy);
    }

    /** Copy a mutable value and store the copy at this level. */
    method CopyHere(n: string, box: Box, ghost world: set<Level>) returns (copy: Box)
      requires Valid(world) && this in world && IsMutableName(n) && UserKey(n[..|n| - |MUTABLE|])
      modifies `attrs
      ensures Valid(world) && attrs == old(attrs)[n := Mut(copy)]
      ensures copy.contents == old(box.contents) && fresh(copy)
      ensures forall m :: m in world ==> WroteHere(n, Mut(copy), old(m.Layers()), m)
    {
      copy := CopyBox(box, world);
      SetAttr(n, Mut(copy), world);
    }

    /** `value.copy()`: allocating the copy disturbs no level. */
    method CopyBox(box: Box, ghost world: set<Level>) returns (copy: Box)
      requires ClosedTree(world)
      ensures copy.contents == old(box.contents) && fresh(copy)
      ensures AttrsOf(world) == old(AttrsOf(world))
      ensures forall m :: m in world ==> m.Layers() == old(m.Layers())
    {
      ghost var layer := map m | m in world :: m.Layer();
      ghost var stack := map m | m in world :: m.Layers();
      copy := box.Copy();
      forall m | m in world ensures m.Layer() == layer[m] {
        assert LayerOf(m.attrs) == old(LayerOf(m.attrs));
      }
      SameStacks(world, layer, stack);
    }

    method GetItem(key: string, readonly: bool, ghost world: set<Level>) returns (got: Got)
      requires Valid(world) && this in world && UserKey(key)
      modifies `attrs
      ensures Valid(world)
      ensures View(old(Layers()), key) ==
        match got case KeyError => Absent case GotValue(v) => Value(v) case GotBox(b) => Contents(b.contents)
      ensures !got.GotBox? || readonly ==> attrs == old(attrs)
      ensures got.GotBox? && !readonly ==> attrs == old(attrs)[MutableName(key) := Mut(got.box)]
      ensures got.GotBox? && !readonly ==> fresh(got.box) || got.box in old(Boxes())
      ensures got.GotBox? && !readonly ==>
        forall m :: m in world ==> WroteHere(MutableName(key), Mut(got.box), old(m.Layers()), m)
    {
      var value := GetAttr(key);
      GetAttrIsAttribute(key);
      if value.None? {
        got := GetMutable(key, readonly, world);
        return;
      }
      ghost var l :| l in Line() && key in l.attrs && l.attrs[key] == value.value;
      assert l in Elements(Line());
      assert ProperAttr(key, AttrsOf(world)[l][key]);
      if value.value.Deleted? {
        return KeyError;
      }
      got := GotValue(value.value.value);
    }

    /** Reading never changes what any level sees, even where it copies. */
    method Lookup(key: string, readonly: bool, ghost world: set<Level>) returns (got: Got)
      requires Valid(world) && this in world && UserKey(key)
      modifies `attrs
      ensures Valid(world)
      ensures View(old(Layers()), key) ==
        match got case KeyError => Absent case GotValue(v) => Value(v) case GotBox(b) => Contents(b.contents)
      ensures got.GotBox? && !readonly ==> forall m :: m in world ==> SameViews(m.Layers(), old(m.Layers()))
    {
      ghost var stack := map m | m in world :: m.Layers();
      StacksProper(world, stack);
      got := GetItem(key, readonly, world);
      if got.GotBox? && !readonly {
        CopyUnseen(world, stack, key, got.box);
      }
    }

    lemma StacksProper(world: set<Level>, stack: map<Level, seq<map<string, Cell>>>)
      requires Valid(world) && this in world && stack.Keys == world
      requires forall m :: m in world ==> stack[m] == m.Layers()
      ensures forall m :: m in world ==> |stack[m]| == |m.Line()| && ProperLayers(stack[m])
      ensures forall m :: m in world && this in m.Line() ==>
        |ancestors| < |stack[m]| && stack[m][..|ancestors| + 1] == stack[this]
    {
      forall m | m in world ensures ProperLayers(m.Layers()) { m.StackProper(world); }
      forall m | m in world && this in m.Line()
        ensures |ancestors| < |stack[m]| && stack[m][..|ancestors| + 1] == stack[this]
      {
        hide ProperLayers, Level.Layer;
        PositionInLine(this, m);
        assert m.LinkedAt(|ancestors|);
        assert Line() == m.Line()[..|ancestors| + 1];
      }
    }

    lemma StackProper(world: set<Level>)
      requires Valid(world) && this in world
      ensures ProperLayers(Layers())
    {
      forall i | 0 <= i < |Line()| ensures ProperLayer(Layers()[i]) {
        var l := Line()[i];
        assert l in Elements(Line());
        forall n | n in l.attrs ensures ProperAttr(n, l.attrs[n]) {
          assert AttrsOf(world)[l][n] == l.attrs[n];
        }
      }
    }

    lemma CopyUnseen(world: set<Level>, stack: map<Level, seq<map<string, Cell>>>, key: string, box: Box)
      requires this in world && stack.Keys == world && UserKey(key)
      requires forall m :: m in world ==> ProperLayers(stack[m])
      requires forall m :: m in world && this in m.Line() ==>
        |ancestors| < |stack[m]| && stack[m][..|ancestors| + 1] == stack[this]
      requires View(stack[this], key) == Contents(box.contents)
      requires forall m :: m in world ==> WroteHere(MutableName(key), Mut(box), stack[m], m)
      ensures forall m :: m in world ==> SameViews(m.Layers(), stack[m])
    {
      hide View, ProperLayers, UserKey, Written, MutableName, SameViews;
      forall m | m in world ensures SameViews(m.Layers(), stack[m]) {
        assert WroteHere(MutableName(key), Mut(box), stack[m], m);
        if this in m.Line() {
          CopyKeepsViews(stack[m], |ancestors|, key, box.contents);
        } else {
          SameViewsSelf(stack[m]);
        }
      }
    }

    /** Changing the contents of a mutable value got for writing: this level's entry changes, and
        nothing that another level sees other than through it. */
    method Mutate(key: string, contents: seq<int>, ghost world: set<Level>) returns (found: bool)
      requires Valid(world) && this in world && UserKey(key)
      modifies `attrs, Boxes()
      ensures Valid(world) && (found <==> View(old(Layers()), key).Contents?)
      ensures found ==> MutableName(key) in attrs && attrs[MutableName(key)].Mut?
                        && attrs[MutableName(key)].box.contents == contents
      ensures found ==> forall m :: m in world ==>
        WroteHere(MutableName(key), attrs[MutableName(key)], old(m.Layers()), m)
    {
      var got := GetItem(key, false, world);
      if !got.GotBox? {
        return false;
      }
      ghost var stack := map m | m in world :: old(m.Layers());
      PutContents(MutableName(key), got.box, contents, world, stack);
      found := true;
    }

    /** A stack of layers of `m` with this level's attribute `n` replaced. */
    ghost function Through(m: Level, n: string, cell: Cell, layers: seq<map<string, Cell>>): seq<map<string, Cell>> {
      if this in m.Line() && |ancestors| < |layers| then Written(layers, |ancestors|, n, cell) else layers
    }

    lemma TwoWrites(world: set<Level>, n: string, box: Box, before: seq<int>,
                    stack: map<Level, seq<map<string, Cell>>>, middle: map<Level, seq<map<string, Cell>>>)
      requires stack.Keys == middle.Keys == world
      requires forall m :: m in world ==> middle[m] == Through(m, n, Mutable(before), stack[m])
      requires forall m :: m in world ==> WroteHere(n, Mut(box), middle[m], m)
      ensures forall m :: m in world ==> WroteHere(n, Mut(box), stack[m], m)
    {
      forall m | m in world ensures WroteHere(n, Mut(box), stack[m], m) {
        assert WroteHere(n, Mut(box), middle[m], m);
        if this in m.Line() && |ancestors| < |stack[m]| {
          WrittenTwice(stack[m], |ancestors|, n, Mutable(before), Mutable(box.contents));
        }
      }
    }

    /** Change a mutable value of this level whose entry was written on top of the given stacks. */
    method PutContents(n: string, box: Box, contents: seq<int>, ghost world: set<Level>,
                       ghost stack: map<Level, seq<map<string, Cell>>>)
      requires Valid(world) && this in world && n in attrs && attrs[n] == Mut(box)
      requires stack.Keys == world && forall m :: m in world ==> WroteHere(n, Mut(box), stack[m], m)
      modifies box
      ensures box.contents == contents && Valid(world)
      ensures forall m :: m in world ==> WroteHere(n, Mut(box), stack[m], m)
    {
      ghost var layer := map l | l in world :: l.Layer();
      ghost var middle := map m | m in world :: m.Layers();
      ghost var before := box.contents;
      StacksAre(world, layer, middle);
      assert forall m :: m in world ==> middle[m] == Through(m, n, Mutable(before), stack[m]);
      hide Level.WroteHere, Level.Layers, Level.Layer, ProperAttrs;
      WriteBox(n, box, contents, world);
      AllSeenBelow(n, Mut(box), world, layer, middle);
      TwoWrites(world, n, box, before, stack, middle);
    }

    method WriteBox(n: string, box: Box, contents: seq<int>, ghost world: set<Level>)
      requires Valid(world) && this in world && n in attrs && attrs[n] == Mut(box)
      modifies box
      ensures box.contents == contents && AttrsOf(world) == old(AttrsOf(world))
      ensures forall l :: l in world ==>
        l.Layer() == if l == this then old(l.Layer())[n := CellOf(Mut(box))] else old(l.Layer())
    {
      ghost var others := attrs - {n};
      HeldOnce(world, n, box);
      LayerSplit(attrs, n);
      ghost var rest := LayerOf(others);
      box.contents := contents;
      LayerSplit(attrs, n);
      assert LayerOf(others) == rest;
      assert old(Layer())[n := CellOf(Mut(box))] == rest[n := CellOf(Mut(box))];
      forall l | l in world && l != this ensures l.Layer() == old(l.Layer()) {
        assert LayerOf(l.attrs) == old(LayerOf(l.attrs));
      }
    }

    lemma HeldOnce(world: set<Level>, n: string, box: Box)
      requires Valid(world) && this in world && n in attrs && attrs[n] == Mut(box)
      ensures box !in BoxesIn(attrs - {n})
      ensures forall l :: l in world && l != this ==> box !in l.Boxes()
    {
      var held := AttrsOf(world);
      assert held[this][n] == Mut(box);
      forall l, k | l in world && k in l.attrs && l.attrs[k] == Mut(box) ensures l == this && k == n {
        assert held[l][k] == held[this][n];
      }
    }

    /** `cow()`: a new level below this one, which sees what this one sees. */
    method Cow(ghost world: set<Level>) returns (child: Level)
      requires Valid(world) && this in world
      ensures fresh(child) && child.parent == this && Valid(world + {child})
      ensures child.Layers() == old(Layers()) + [map[]]
      ensures forall m :: m in world ==> m.Layers() == old(m.Layers())
    {
      ghost var layer := map m | m in world :: m.Layer();
      ghost var stack := map m | m in world :: m.Layers();
      child := new Level.Child(this);
      forall m | m in world ensures m.Layer() == layer[m] {
        assert LayerOf(m.attrs) == old(LayerOf(m.attrs));
      }
      SameStacks(world, layer, stack);
      ChildValid(world, child);
    }

    lemma ChildValid(world: set<Level>, child: Level)
      requires ClosedTree(world) && ProperAttrs(AttrsOf(world)) && this in world && child !in world
      requires child.parent == this && child.ancestors == Line() && child.attrs == map[]
      ensures Valid(world + {child}) && child.Layers() == Layers() + [map[]]
    {
      ChildLinked(child);
      assert AttrsOf(world + {child}) == AttrsOf(world)[child := map[]];
      assert child.Layer() == map[];
    }

    lemma ChildLinked(child: Level)
      requires Linked() && child.parent == this && child.ancestors == Line()
      ensures child.Linked() && Elements(child.Line()) == Elements(Line()) + {child}
    {
      forall i | 0 <= i < |child.Line()| ensures child.LinkedAt(i) {
        if i < |Line()| {
          assert LinkedAt(i);
          assert child.Line()[..i] == Line()[..i];
        }
      }
    }

    /** `dir` */
    function DirNames(): (names: set<string>)
      requires Linked()
      reads Elements(Line())
      decreases |ancestors|
    {
      ParentLinked();
      if parent == null then attrs.Keys else parent.DirNames() + attrs.Keys
    }

    lemma {:induction false} DirNamesAre()
      requires Linked()
      ensures DirNames() == Names(Layers())
      decreases |ancestors|
    {
      ParentLinked();
      var layers := Layers();
      assert layers[|ancestors|] == Layer();
      if parent != null {
        parent.DirNamesAre();
        assert layers[..|ancestors|] == parent.Layers();
      } else {
        assert layers[..|ancestors|] == [];
      }
    }

    /** `iteritems(readonly=True)` */
    method IterItems() returns (items: seq<(string, Seen)>)
      requires Linked()
      ensures items == Items(old(Layers()), Sorted(Names(old(Layers()))))
    {
      ghost var layers := Layers();
      assert forall l :: l in Line() ==> allocated(l);
      assert forall b :: b in LineBoxes() ==> allocated(b);
      DirNamesAre();
      var names := SortNames(DirNames());
      assert Layers() == layers;
      items := ListItems(names);
    }

    method ListItems(names: seq<string>) returns (items: seq<(string, Seen)>)
      requires Linked()
      ensures items == Items(old(Layers()), names)
    {
      ghost var layers := Layers();
      assert forall l :: l in Line() ==> allocated(l);
      assert forall b :: b in LineBoxes() ==> allocated(b);
      items := [];
      for i := 0 to |names|
        invariant Layers() == layers && items == Items(layers, names[..i])
      {
        var key := KeyOf(names[i]);
        ItemsGrow(layers, names, i);
        ReadOnlyIsView(key);
        if !("__" <= names[i]) && ReadOnly(key) != Absent {
          items := items + [(key, ReadOnly(key))];
        }
      }
      assert names[..|names|] == names;
    }

    /** `__getreadonly__`; a mutable value is given by its contents. */
    function ReadOnly(key: string): Seen
      requires Linked()
      reads Elements(Line()), LineBoxes()
    {
      var plain := GetAttr(key);
      var value := if plain.Some? then plain else GetAttr(MutableName(key));
      match value
      case None => Absent
      case Some(Imm(v)) => Value(v)
      case Some(Deleted) => Absent
      case Some(Mut(b)) =>
        FoundBox(value.value);
        Contents(b.contents)
    }

    lemma FoundBox(a: Attr)
      requires a.Mut? && exists l, n :: l in Line() && n in l.attrs && l.attrs[n] == a
      ensures a.box in LineBoxes()
    {
      var l, n :| l in Line() && n in l.attrs && l.attrs[n] == a;
      assert a.box in l.Boxes();
    }

    lemma ReadOnlyIsView(key: string)
      requires Linked()
      ensures ReadOnly(key) == View(Layers(), key)
    {
      GetAttrIsAttribute(key);
      GetAttrIsAttribute(MutableName(key));
    }

    lemma SameStacks(world: set<Level>, layer: map<Level, map<string, Cell>>, stack: map<Level, seq<map<string, Cell>>>)
      requires ClosedTree(world) && layer.Keys == stack.Keys == world
      requires forall l :: l in world ==> l.Layer() == layer[l]
      requires forall m :: m in world ==> |stack[m]| == |m.Line()|
      requires forall m, i :: m in world && 0 <= i < |m.Line()| ==>
        m.Line()[i] in world && stack[m][i] == layer[m.Line()[i]]
      ensures forall m :: m in world ==> m.Layers() == stack[m]
    {
    }

    lemma NothingNew(world: set<Level>, n: string)
      requires ClosedTree(world) && this in world && n in attrs
      ensures forall m :: m in world ==> WroteHere(n, attrs[n], m.Layers(), m)
    {
      forall m | m in world && this in m.Line() ensures WroteHere(n, attrs[n], m.Layers(), m) {
        PositionInLine(this, m);
        var layer := m.Layers()[|ancestors|];
        assert layer[n := CellOf(attrs[n])] == layer;
      }
    }

    lemma StacksAre(world: set<Level>, layer: map<Level, map<string, Cell>>, stack: map<Level, seq<map<string, Cell>>>)
      requires ClosedTree(world) && layer.Keys == stack.Keys == world
      requires forall l :: l in world ==> layer[l] == l.Layer() && stack[l] == l.Layers()
      ensures forall m :: m in world ==> |stack[m]| == |m.Line()|
      ensures forall m, i :: m in world && 0 <= i < |m.Line()| ==>
        m.Line()[i] in world && stack[m][i] == layer[m.Line()[i]]
    {
      forall m, i | m in world && 0 <= i < |m.Line()|
        ensures m.Line()[i] in world && stack[m][i] == layer[m.Line()[i]]
      {
        assert m.Line()[i] in Elements(m.Line());
      }
    }

    lemma AllSeenBelow(n: string, a: Attr, world: set<Level>, before: map<Level, map<string, Cell>>,
                       stack: map<Level, seq<map<string, Cell>>>)
      requires ClosedTree(world) && before.Keys == stack.Keys == world
      requires forall l :: l in world ==> l.Layer() == if l == this then before[l][n := CellOf(a)] else before[l]
      requires forall m :: m in world ==> |stack[m]| == |m.Line()|
      requires forall m, i :: m in world && 0 <= i < |m.Line()| ==>
        m.Line()[i] in world && stack[m][i] == before[m.Line()[i]]
      ensures forall m :: m in world ==> WroteHere(n, a, stack[m], m)
    {
      hide Level.WroteHere, Level.Layer;
      forall m | m in world ensures WroteHere(n, a, stack[m], m) {
        SeenBelow(n, a, world, before, m, stack[m]);
      }
    }

    lemma SeenBelow(n: string, a: Attr, world: set<Level>, before: map<Level, map<string, Cell>>,
                    m: Level, layers: seq<map<string, Cell>>)
      requires m.Linked() && Elements(m.Line()) <= world && world <= before.Keys && |layers| == |m.Line()|
      requires forall l :: l in world ==> l.Layer() == if l == this then before[l][n := CellOf(a)] else before[l]
      requires forall i :: 0 <= i < |layers| ==> m.Line()[i] in before && layers[i] == before[m.Line()[i]]
      ensures WroteHere(n, a, layers, m)
    {
      if this in m.Line() {
        PositionInLine(this, m);
      }
      forall i | 0 <= i < |m.Line()|
        ensures m.Layers()[i] == if m.Line()[i] == this then layers[i][n := CellOf(a)] else layers[i]
      {
        assert m.Line()[i] in Elements(m.Line());
      }
    }
  }

  function NameFor(key: string, item: Item): string {
    if item.MutableItem? then MutableName(key) else key
  }

  function AttrFor(item: Item): Attr {
    match item case Immutable(v) => Imm(v) case MutableItem(b) => Mut(b)
  }

  lemma OwnIsFound(l: Level, n: string)
    requires n in l.attrs
    ensures Attribute(l.Layers(), n) == Some(CellOf(l.attrs[n]))
  {
  }

  ghost function BoxesIn(attrs: map<string, Attr>): set<Box> {
    set n | n in attrs && attrs[n].Mut? :: attrs[n].box
  }

  ghost function LayerOf(attrs: map<string, Attr>): map<string, Cell>
    reads BoxesIn(attrs)
  {
    map n | n in attrs :: CellOf(attrs[n])
  }

  lemma LayerSplit(attrs: map<string, Attr>, n: string)
    requires n in attrs
    ensures LayerOf(attrs) == LayerOf(attrs - {n})[n := CellOf(attrs[n])]
  {
  }

  lemma LayerSet(attrs: map<string, Attr>, n: string, a: Attr)
    ensures LayerOf(attrs[n := a]) == LayerOf(attrs)[n := CellOf(a)]
  {
  }

  predicate ProperAttr(n: string, a: Attr) {
    if IsMutableName(n) then a.Mut? && UserKey(n[..|n| - |MUTABLE|]) else !a.Mut? && UserKey(n)
  }

  ghost function CellOf(a: Attr): Cell
    reads if a.Mut? then {a.box} else {}
  {
    match a case Imm(v) => Plain(v) case Deleted => Marker case Mut(b) => Mutable(b.contents)
  }

  /** The parents of every level of the tree are in the tree. */
  ghost predicate ClosedTree(world: set<Level>) {
    forall l :: l in world ==> l.Linked() && Elements(l.Line()) <= world
  }

  type Attrs = map<Level, map<string, Attr>>

  ghost function AttrsOf(world: set<Level>): Attrs
    reads world
  {
    map l | l in world :: l.attrs
  }

  /** Attributes are where their kind belongs, and no mutable value is held in two places. */
  ghost predicate ProperAttrs(attrs: Attrs) {
    && (forall l, n :: l in attrs && n in attrs[l] ==> ProperAttr(n, attrs[l][n]))
    && forall l, n, m, k :: l in attrs && n in attrs[l] && m in attrs && k in attrs[m] ==>
         attrs[l][n].Mut? && attrs[l][n] == attrs[m][k] ==> l == m && n == k
  }

  /** No place other than attribute `n` of `l` holds the box. */
  ghost predicate OnlyAt(attrs: Attrs, a: Attr, l: Level, n: string) {
    a.Mut? ==> forall m, k :: m in attrs && k in attrs[m] && attrs[m][k] == a ==> m == l && k == n
  }

  ghost predicate Valid(world: set<Level>)
    reads world
  {
    ClosedTree(world) && ProperAttrs(AttrsOf(world))
  }

  lemma SetKeepsProper(attrs: Attrs, l: Level, n: string, a: Attr)
    requires ProperAttrs(attrs) && l in attrs && ProperAttr(n, a) && OnlyAt(attrs, a, l, n)
    ensures ProperAttrs(attrs[l := attrs[l][n := a]])
  {
    hide ProperAttr;
    var after: Attrs := attrs[l := attrs[l][n := a]];
    forall p: Level, i: string, q: Level, j: string | p in after && i in after[p] && q in after && j in after[q]
                        && after[p][i].Mut? && after[p][i] == after[q][j]
      ensures p == q && i == j
    {
    }
  }

  /** Where a level sits in the stack of a level below it. */
  lemma PositionInLine(l: Level, m: Level)
    requires m.Linked() && l in m.Line()
    ensures |l.ancestors| < |m.Line()| && m.Line()[|l.ancestors|] == l
    ensures forall i :: 0 <= i < |m.Line()| && m.Line()[i] == l ==> i == |l.ancestors|
  {
    forall i | 0 <= i < |m.Line()| && m.Line()[i] == l ensures i == |l.ancestors| {
      assert m.LinkedAt(i);
    }
  }
}
