/** The settings tree on the heap: `dict_merge` changes the target's dicts in place, and copies what it
    takes from the source. */
module SettingsTree {
  import opened Settings

  datatype Item = Leaf(text: string) | Sub(node: Node) {
    ghost function Repr(): set<Node>
      reads if Sub? then {node} else {}
    {
      if Sub? then node.repr else {}
    }

    ghost function Value(): Yaml
      reads if Sub? then {node} else {}
    {
      if Sub? then node.value else Scalar(text)
    }

    ghost predicate Valid()
      reads if Sub? then {node} + node.repr else {}
      decreases Repr(), 1
    {
      Sub? ==> node.Valid()
    }
  }

  /** A dict; `value` is what it stands for and `repr` has all the dicts in it. No dict is in two places. */
  class Node {
    var entries: map<string, Item>
    ghost var value: Yaml
    ghost var repr: set<Node>

    ghost predicate Apart(j: string, k: string)
      requires j in entries && k in entries
      reads this, if entries[j].Sub? then {entries[j].node} else {}, if entries[k].Sub? then {entries[k].node} else {}
    {
      entries[j].Repr() !! entries[k].Repr()
    }

    ghost predicate Valid()
      reads this, repr
      ensures Valid() ==> this in repr
      decreases repr, 0
    {
      && this in repr && value.Dict? && value.entries.Keys == entries.Keys
      && (forall k :: k in entries && entries[k].Sub? ==>
            entries[k].node in repr - {this} && entries[k].node.repr <= repr - {this})
      && (forall k :: k in entries ==> entries[k].Valid() && entries[k].Value() == value.entries[k])
      && forall j, k :: j in entries && k in entries && j != k ==> Apart(j, k)
    }

    constructor ()
      ensures Valid() && fresh(repr) && repr == {this} && value == Dict(map[])
    {
      entries, value, repr := map[], Dict(map[]), {this};
    }

    /** `self[k] = item`, for an item that is nowhere in this dict yet. */
    method Put(k: string, item: Item)
      requires Valid() && item.Valid() && item.Repr() !! repr
      modifies this
      ensures Valid() && repr == old(repr) + item.Repr()
      ensures value == Dict(old(value).entries[k := item.Value()])
    {
      ghost var was := entries;
      entries := entries[k := item];
      repr := repr + item.Repr();
      value := Dict(value.entries[k := item.Value()]);
      assert this !in item.Repr();
      forall j | j in entries ensures entries[j].Valid() && entries[j].Value() == value.entries[j] {
        if j != k { assert entries[j] == was[j] && this !in was[j].Repr(); }
      }
      forall i, j | i in entries && j in entries && i != j ensures Apart(i, j) {
        if i != k && j != k { assert old(Apart(i, j)); }
        assert i != k ==> entries[i] == was[i];
        assert j != k ==> entries[j] == was[j];
      }
      forall j | j in entries && entries[j].Sub?
        ensures entries[j].node in repr - {this} && entries[j].node.repr <= repr - {this}
      {
        assert j != k ==> entries[j] == was[j];
      }
      hide Item.Valid, Item.Value, Node.Apart;
    }

    /** All but the dict at `k` is as it was recorded; that one has changed, and is recorded again. */
    ghost method Record(k: string)
      requires this in repr && value.Dict? && value.entries.Keys == entries.Keys && k in entries && entries[k].Sub?
      requires entries[k].node in repr && entries[k].Valid() && this !in entries[k].Repr()
      requires forall j :: j in entries && entries[j].Sub? ==>
        entries[j].node in repr - {this} && (j != k ==> entries[j].node.repr <= repr - {this})
      requires forall j :: j in entries && j != k ==> entries[j].Valid() && entries[j].Value() == value.entries[j]
      requires forall i, j :: i in entries && j in entries && i != j ==> Apart(i, j)
      modifies `repr, `value
      ensures Valid() && repr == old(repr) + entries[k].Repr()
      ensures value == Dict(old(value).entries[k := entries[k].Value()])
    {
      hide Item.Valid, Item.Value, Node.Valid;
      repr := repr + entries[k].Repr();
      value := Dict(value.entries[k := entries[k].Value()]);
      forall j | j in entries ensures entries[j].Valid() && entries[j].Value() == value.entries[j] {
        assert this !in entries[j].Repr();
      }
      AllRecorded();
    }

    lemma AllRecorded()
      requires this in repr && value.Dict? && value.entries.Keys == entries.Keys
      requires forall j :: j in entries && entries[j].Sub? ==>
        entries[j].node in repr - {this} && entries[j].node.repr <= repr - {this}
      requires forall j :: j in entries ==> entries[j].Valid() && entries[j].Value() == value.entries[j]
      requires forall i, j :: i in entries && j in entries && i != j ==> Apart(i, j)
      ensures Valid()
    {
      hide Item.Valid, Item.Value, Node.Apart;
    }

    method Pop(k: string)
      requires Valid() && k in entries
      modifies this
      ensures Valid() && repr == old(repr)
      ensures value == Dict(old(value).entries - {k})
    {
      ghost var was := entries;
      entries := entries - {k};
      value := Dict(value.entries - {k});
      forall j | j in entries ensures entries[j].Valid() && entries[j].Value() == value.entries[j] {
        assert entries[j] == was[j] && this !in was[j].Repr();
      }
      forall i, j | i in entries && j in entries && i != j ensures Apart(i, j) {
        assert old(Apart(i, j));
      }
      hide Item.Valid, Item.Value, Node.Apart;
    }
  }

  method DeepCopy(item: Item) returns (c: Item)
    requires item.Valid()
    ensures c.Valid() && fresh(c.Repr()) && c.Value() == item.Value()
    decreases item.Repr(), 1
  {
    match item {
      case Leaf(text) => c := item;
      case Sub(node) =>
        var copy := CopyNode(node);
        c := Sub(copy);
    }
  }

  method CopyNode(node: Node) returns (copy: Node)
    requires node.Valid()
    ensures copy.Valid() && fresh(copy.repr) && copy.value == node.value
    decreases node.repr, 0
  {
    hide PartlyCopied, Node.Apart;
    copy := new Node();
    NothingCopied(node.value);
    var todo := node.entries.Keys;
    while todo != {}
      invariant todo <= node.entries.Keys && copy.Valid() && fresh(copy.repr)
      invariant PartlyCopied(copy.value, node.value, todo)
      decreases todo
    {
      var k :| k in todo;
      EntryCopied(copy.value, node.value, todo, k);
      var v := DeepCopy(node.entries[k]);
      copy.Put(k, v);
      todo := todo - {k};
    }
    AllCopied(copy.value, node.value);
  }

  /** The source is not changed, and the target takes in no dict of it. */
  method DictMerge(target: Node, source: Item, remove: bool)
    requires target.Valid() && source.Valid() && source.Repr() !! target.repr
    modifies target.repr
    ensures target.Valid() && fresh(target.repr - old(target.repr))
    ensures target.value == Merged(old(target.value), source.Value(), remove)
    ensures source.Valid() && source.Value() == old(source.Value())
    ensures source.Repr() == old(source.Repr()) && source.Repr() !! target.repr
    decreases source.Repr(), 0
  {
    hide PartlyMerged, Merged, MergedEntry, Node.Apart;
    NothingMerged(target.value, source.Value(), remove);
    if source.Leaf? {
      return;
    }
    var todo := source.node.entries.Keys;
    ghost var t, s := target.value, source.node.value;
    ghost var own := source.node.repr;
    while todo != {}
      invariant target.Valid() && source.Valid() && fresh(target.repr - old(target.repr))
      invariant source.node.value == s && source.node.repr == own && own !! target.repr
      invariant todo <= source.node.entries.Keys && PartlyMerged(target.value, t, s, remove, todo)
      decreases todo
    {
      var k :| k in todo;
      EntryMerged(target.value, t, s, remove, todo, k);
      MergeEntry(target, k, source.node.entries[k], remove);
      todo := todo - {k};
    }
    AllMerged(target.value, t, s, remove);
  }

  method MergeEntry(target: Node, k: string, v: Item, remove: bool)
    requires target.Valid() && v.Valid() && v.Repr() !! target.repr
    modifies target.repr
    ensures target.Valid() && fresh(target.repr - old(target.repr))
    ensures target.value == MergedEntry(old(target.value), k, v.Value(), remove)
    decreases v.Repr(), 2
  {
    if k in target.entries && target.entries[k].Sub? {
      MergeBelow(target, k, v, remove);
    } else if remove && k in target.entries {
      target.Pop(k);
    } else {
      var copy := DeepCopy(v);
      target.Put(k, copy);
    }
  }

  method MergeBelow(target: Node, k: string, v: Item, remove: bool)
    requires target.Valid() && v.Valid() && v.Repr() !! target.repr && k in target.entries && target.entries[k].Sub?
    modifies target.repr
    ensures target.Valid() && fresh(target.repr - old(target.repr))
    ensures target.value == MergedEntry(old(target.value), k, v.Value(), remove)
    decreases v.Repr(), 1
  {
    hide MergedEntry, Merged;
    var child := target.entries[k].node;
    assert child.Valid() && child.value == target.value.entries[k];
    EntryBelow(target.value, k, v.Value(), remove);
    ghost var inner := child.repr;
    DictMerge(child, v, remove);
    forall j | j in target.entries && j != k
      ensures target.entries[j].Valid() && target.Apart(j, k) && target.Apart(k, j)
      ensures target.entries[j].Repr() == old(target.entries[j].Repr())
    {
      assert old(target.Apart(j, k) && target.Apart(k, j));
      assert target.entries[j].Repr() !! inner;
    }
    forall i, j | i in target.entries && j in target.entries && i != j && i != k && j != k ensures target.Apart(i, j) {
      hide Item.Valid, Item.Repr, Item.Value;
      assert old(target.Apart(i, j));
    }
    target.Record(k);
  }

  ghost function Values(items: seq<Item>): seq<Yaml>
    reads set i | i in items && i.Sub? :: i.node
  {
    seq(|items|, i requires 0 <= i < |items| reads set i | i in items && i.Sub? :: i.node => items[i].Value())
  }

  /** The override files, in the order given. */
  method ApplyOverrides(target: Node, overrides: seq<Item>)
    requires target.Valid() && forall s :: s in overrides ==> s.Valid() && s.Repr() !! target.repr
    modifies target.repr
    ensures target.Valid()
    ensures target.value == MergeAll(old(target.value), old(Values(overrides)))
  {
    ghost var t, values := target.value, Values(overrides);
    for i := 0 to |overrides|
      invariant target.Valid() && fresh(target.repr - old(target.repr))
      invariant forall s :: s in overrides ==> s.Valid() && s.Repr() !! target.repr
      invariant Values(overrides) == values
      invariant target.value == MergeAll(t, values[..i])
    {
      assert values[..i + 1][..i] == values[..i] && overrides[i] in overrides;
      DictMerge(target, overrides[i], false);
      assert target.value == Merge(MergeAll(t, values[..i]), values[i]);
    }
    assert values[..|overrides|] == values;
  }
}
