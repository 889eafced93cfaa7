// The doubly linked child list of a cJSON item, against a sequence of items.

module JsonList {

  /** The links of a cJSON item. */
  class Item {
    var next: Item?
    var prev: Item?
    var child: Item?

    constructor ()
      ensures next == null && prev == null && child == null
    {
      next, prev, child := null, null, null;
    }
  }

  /** The item at an index, or null past either end. */
  function At(nodes: seq<Item>, i: int): Item? {
    if 0 <= i < |nodes| then nodes[i] else null
  }

  ghost predicate Distinct(nodes: seq<Item>) {
    forall i, j :: 0 <= i < j < |nodes| ==> nodes[i] != nodes[j]
  }

  /** next and prev of the item at an index. */
  ghost predicate Linked(nodes: seq<Item>, i: nat)
    requires i < |nodes|
    reads nodes[i]
  {
    nodes[i].next == At(nodes, i + 1) && nodes[i].prev == At(nodes, i - 1)
  }

  /** The children of parent are these items, in this order: next and prev are
      inverse to each other, and null at the ends. */
  ghost predicate Children(parent: Item, nodes: seq<Item>)
    reads parent, nodes
  {
    && parent !in nodes
    && Distinct(nodes)
    && parent.child == At(nodes, 0)
    && forall i :: 0 <= i < |nodes| ==> Linked(nodes, i)
  }

  /** An item in no list. */
  ghost predicate Loose(item: Item, parent: Item, nodes: seq<Item>)
    reads item
  {
    item != parent && item !in nodes && item.next == null && item.prev == null
  }

  lemma NeighboursLinked(nodes: seq<Item>, i: nat)
    requires i < |nodes| && forall k :: 0 <= k < |nodes| ==> Linked(nodes, k)
    ensures Linked(nodes, i)
    ensures i > 0 ==> Linked(nodes, i - 1)
    ensures i + 1 < |nodes| ==> Linked(nodes, i + 1)
  {}

  /** get_array_item. */
  method GetArrayItem(parent: Item, index: nat, ghost nodes: seq<Item>) returns (item: Item?)
    requires Children(parent, nodes)
    ensures item == At(nodes, index)
  {
    var left := index;
    item := parent.child;
    while item != null && left > 0
      invariant 0 <= left <= index && item == At(nodes, index - left)
      decreases left
    {
      assert Linked(nodes, index - left);
      left := left - 1;
      item := item.next;
    }
  }

  /** cJSON_GetArraySize, before the cast to int. */
  method GetArraySize(parent: Item, ghost nodes: seq<Item>) returns (size: nat)
    requires Children(parent, nodes)
    ensures size == |nodes|
  {
    size := 0;
    var item := parent.child;
    while item != null
      invariant size <= |nodes| && item == At(nodes, size)
      decreases |nodes| - size
    {
      assert Linked(nodes, size);
      size := size + 1;
      item := item.next;
    }
  }

  /** add_item_to_array. */
  method AddItemToArray(parent: Item, item: Item, ghost nodes: seq<Item>)
    requires Children(parent, nodes) && Loose(item, parent, nodes)
    modifies parent`child, nodes, item`prev
    ensures Children(parent, nodes + [item])
    ensures forall n <- nodes :: n.child == old(n.child)
  {
    var child := parent.child;
    if child == null {
      parent.child := item;
    } else {
      ghost var i := 0;
      while child.next != null
        invariant 0 <= i < |nodes| && child == nodes[i]
        decreases |nodes| - i
      {
        assert Linked(nodes, i);
        child := child.next;
        i := i + 1;
      }
      assert Linked(nodes, i);
      child.next := item;
      item.prev := child;
    }
    ghost var r := nodes + [item];
    forall i | 0 <= i < |r| ensures Linked(r, i) {
      assert i < |nodes| ==> old(Linked(nodes, i));
    }
  }

  function Inserted(nodes: seq<Item>, which: int, item: Item): seq<Item> {
    if which < 0 then nodes
    else if which < |nodes| then nodes[..which] + [item] + nodes[which..]
    else nodes + [item]
  }

  /** cJSON_InsertItemInArray: a negative index inserts nothing, one past the end appends. */
  method InsertItemInArray(parent: Item, which: int, item: Item, ghost nodes: seq<Item>)
    requires Children(parent, nodes) && Loose(item, parent, nodes)
    modifies parent`child, nodes, item`next, item`prev
    ensures Children(parent, Inserted(nodes, which, item))
    ensures forall n <- nodes :: n.child == old(n.child)
  {
    if which < 0 {
      return;
    }
    var after := GetArrayItem(parent, which, nodes);
    if after == null {
      AddItemToArray(parent, item, nodes);
      return;
    }
    NeighboursLinked(nodes, which);
    item.next := after;
    item.prev := after.prev;
    after.prev := item;
    if after == parent.child {
      parent.child := item;
    } else {
      item.prev.next := item;
    }
    ghost var r := Inserted(nodes, which, item);
    InsertedAt(nodes, which, item);
    forall i | 0 <= i < |r| ensures Linked(r, i) {
      assert i != which ==> old(Linked(nodes, if i < which then i else i - 1));
    }
  }

  lemma InsertedAt(nodes: seq<Item>, which: nat, item: Item)
    requires which < |nodes| && Distinct(nodes) && item !in nodes
    ensures var r := Inserted(nodes, which, item);
      && |r| == |nodes| + 1 && Distinct(r)
      && forall i :: 0 <= i < |r| ==> r[i] == if i < which then nodes[i] else if i == which then item else nodes[i - 1]
  {}

  function Removed(nodes: seq<Item>, i: nat): seq<Item>
    requires i < |nodes|
  {
    nodes[..i] + nodes[i + 1..]
  }

  /** cJSON_DetachItemViaPointer: the item is out of the list and points nowhere. */
  method DetachItemViaPointer(parent: Item, item: Item, ghost i: nat, ghost nodes: seq<Item>)
    requires Children(parent, nodes) && i < |nodes| && item == nodes[i]
    modifies parent`child, nodes
    ensures Children(parent, Removed(nodes, i)) && Loose(item, parent, Removed(nodes, i))
    ensures forall n <- nodes :: n.child == old(n.child)
  {
    NeighboursLinked(nodes, i);
    if item.prev != null {
      item.prev.next := item.next;
    }
    if item.next != null {
      item.next.prev := item.prev;
    }
    if item == parent.child {
      parent.child := item.next;
    }
    item.prev := null;
    item.next := null;
    ghost var r := Removed(nodes, i);
    RemovedAt(nodes, i);
    forall k | 0 <= k < |r| ensures Linked(r, k) {
      assert old(Linked(nodes, if k < i then k else k + 1));
    }
  }

  lemma RemovedAt(nodes: seq<Item>, i: nat)
    requires i < |nodes| && Distinct(nodes)
    ensures var r := Removed(nodes, i);
      && |r| == |nodes| - 1 && Distinct(r) && nodes[i] !in r
      && forall k :: 0 <= k < |r| ==> r[k] == if k < i then nodes[k] else nodes[k + 1]
  {}

  /** cJSON_DetachItemFromArray. */
  method DetachItemFromArray(parent: Item, which: int, ghost nodes: seq<Item>) returns (item: Item?)
    requires Children(parent, nodes)
    modifies parent`child, nodes
    ensures item == At(nodes, which)
    ensures item == null ==> Children(parent, nodes)
    ensures item != null ==> Children(parent, Removed(nodes, which)) && Loose(item, parent, Removed(nodes, which))
  {
    if which < 0 {
      return null;
    }
    item := GetArrayItem(parent, which, nodes);
    if item != null {
      DetachItemViaPointer(parent, item, which, nodes);
    }
  }

  /** cJSON_ReplaceItemViaPointer, but for the deletion of the item: it points nowhere. */
  method ReplaceItemViaPointer(parent: Item, item: Item, replacement: Item, ghost i: nat, ghost nodes: seq<Item>)
    requires Children(parent, nodes) && i < |nodes| && item == nodes[i]
    requires replacement == item || Loose(replacement, parent, nodes)
    modifies parent`child, nodes, replacement`next, replacement`prev
    ensures Children(parent, nodes[i := replacement])
    ensures replacement != item ==> Loose(item, parent, nodes[i := replacement])
    ensures forall n <- nodes :: n.child == old(n.child)
  {
    if replacement == item {
      assert nodes[i := replacement] == nodes;
      return;
    }
    NeighboursLinked(nodes, i);
    replacement.next := item.next;
    replacement.prev := item.prev;
    if replacement.next != null {
      replacement.next.prev := replacement;
    }
    if replacement.prev != null {
      replacement.prev.next := replacement;
    }
    if parent.child == item {
      parent.child := replacement;
    }
    item.next := null;
    item.prev := null;
    ghost var r := nodes[i := replacement];
    forall k | 0 <= k < |r| ensures Linked(r, k) {
      assert old(Linked(nodes, k));
    }
  }

  // What one call inserts another detaches: the list is as it was.
  method InsertAndDetach(parent: Item, which: nat, item: Item, ghost nodes: seq<Item>) returns (out: Item?)
    requires Children(parent, nodes) && Loose(item, parent, nodes) && which <= |nodes|
    modifies parent`child, nodes, item
    ensures out == item && Children(parent, nodes) && Loose(item, parent, nodes)
  {
    hide Children, Loose;
    InsertItemInArray(parent, which, item, nodes);
    ghost var more := Inserted(nodes, which, item);
    out := GetArrayItem(parent, which, more);
    DetachInserted(nodes, which, item);
    assert forall n <- more :: n in nodes || n == item;
    DetachItemViaPointer(parent, item, which, more);
  }

  lemma DetachInserted(nodes: seq<Item>, which: nat, item: Item)
    requires which <= |nodes|
    ensures var more := Inserted(nodes, which, item);
      which < |more| && more[which] == item && Removed(more, which) == nodes
  {}
}
