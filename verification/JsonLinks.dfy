/** Surgery on the doubly linked children of an array or object. */
module JsonLinks {

  /** The links of a `cJsonDap`. `items` is the sequence its children form along `next`. */
  class Item {
    var next: Item?
    var prev: Item?
    var child: Item?
    ghost var items: seq<Item>

    /** A new item: `memset` to zero. */
    constructor ()
      ensures next == null && prev == null && child == null && items == [] && Valid()
    {
      next, prev, child := null, null, null;
      items := [];
    }

    ghost predicate Valid()
      reads this, items
    {
      this !in items && Chain(child, items)
    }

    /** An item that belongs to no container. */
    predicate Detached()
      reads this
    {
      next == null && prev == null
    }

    /** `cJSON_AddItemToArray`: append. */
    method AddItem(item: Item?)
      requires Valid() && (item != null ==> item != this && item !in items && item.Detached())
      modifies this`child, this`items, items`next, item
      ensures Valid()
      ensures items == if item == null then old(items) else old(items) + [item]
      ensures item != null ==> item.child == old(item.child) && item.items == old(item.items)
    {
      var c := child;
      if item == null {
        return;
      }
      if c == null {
        child := item;
      } else {
        ghost var k := 0;
        while c != null && c.next != null
          invariant 0 <= k < |items| && c == items[k]
          decreases |items| - k
        {
          c := c.next;
          k := k + 1;
        }
        c.next := item;
        item.prev := c;
      }
      items := items + [item];
    }

    /** The walk along `next` with which both operations below begin. */
    method Walk(index: int) returns (c: Item?, ghost k: nat)
      requires Valid()
      ensures k == if Position(index) < |items| then Position(index) else |items|
      ensures c == if Position(index) < |items| then items[Position(index)] else null
    {
      var which := index;
      c := child;
      k := 0;
      while c != null && which > 0
        invariant 0 <= k <= |items| && c == (if k < |items| then items[k] else null)
        invariant if index > 0 then which >= 0 && k == index - which else k == 0 && which == index
        decreases which
      {
        c, which := c.next, which - 1;
        k := k + 1;
      }
    }

    /** `cJSON_DetachItemFromArray`: remove at an index; a negative index is the first. */
    method DetachItem(index: int) returns (c: Item?)
      requires Valid()
      modifies this`child, this`items, items`next, items`prev
      ensures Valid()
      ensures var k := Position(index);
              if k < |old(items)| then
                c == old(items)[k] && c.Detached() && items == old(items)[..k] + old(items)[k + 1..]
              else c == null && items == old(items)
    {
      ghost var k;
      c, k := Walk(index);
      if c != null {
        Unlink(c, k);
      }
    }

    /** Joins the neighbours of item `k` and cuts it off. */
    method Unlink(c: Item, ghost k: nat)
      requires Valid() && k < |items| && c == items[k]
      modifies this`child, this`items, items`next, items`prev
      ensures Valid() && c.Detached() && items == old(items)[..k] + old(items)[k + 1..]
    {
      if c.prev != null {
        c.prev.next := c.next;
      }
      if c.next != null {
        c.next.prev := c.prev;
      }
      if c == child {
        child := c.next;
      }
      c.prev, c.next := null, null;
      items := items[..k] + items[k + 1..];
      assert forall i {:trigger items[i]} :: 0 <= i < |items| ==> items[i] == old(items)[if i < k then i else i + 1];
    }

    /** `cJSON_ReplaceItemInArray`: update at an index; the replaced item is cut off,
        to be deleted. */
    method ReplaceItem(index: int, newitem: Item)
      requires Valid() && newitem != this && newitem !in items && newitem.Detached()
      modifies this`child, this`items, items`next, items`prev, newitem`next, newitem`prev
      ensures Valid()
      ensures var k := Position(index);
              if k < |old(items)| then items == old(items)[k := newitem] && old(items)[k].Detached()
              else items == old(items) && newitem.Detached()
    {
      var c;
      ghost var k;
      c, k := Walk(index);
      if c == null {
        return;
      }
      newitem.next := c.next;
      newitem.prev := c.prev;
      if newitem.next != null {
        newitem.next.prev := newitem;
      }
      if c == child {
        child := newitem;
      } else {
        newitem.prev.next := newitem;
      }
      c.next, c.prev := null, null;
      items := items[k := newitem];
    }
  }

  function Position(index: int): nat { if index > 0 then index else 0 }

  /** From `first` along `next` lie exactly `items`, once each, and `prev` leads back. */
  ghost predicate Chain(first: Item?, items: seq<Item>)
    reads items
  {
    && first == (if |items| > 0 then items[0] else null)
    && (forall i {:trigger items[i].next} :: 0 <= i < |items| ==>
          items[i].next == if i + 1 < |items| then items[i + 1] else null)
    && (forall i {:trigger items[i].prev} :: 0 <= i < |items| ==>
          items[i].prev == if i > 0 then items[i - 1] else null)
    && (forall i, j :: 0 <= i < j < |items| ==> items[i] != items[j])
  }

  /** Following `next` determines the sequence. */
  lemma ChainUnique(first: Item?, a: seq<Item>, b: seq<Item>)
    requires Chain(first, a) && Chain(first, b)
    ensures a == b
  {
    SamePrefix(first, a, b, if |a| < |b| then |a| else |b|);
  }

  lemma {:induction false} SamePrefix(first: Item?, a: seq<Item>, b: seq<Item>, k: nat)
    requires Chain(first, a) && Chain(first, b) && k <= |a| && k <= |b|
    ensures a[..k] == b[..k]
    ensures k < |a| <==> k < |b|
  {
    if k > 0 {
      SamePrefix(first, a, b, k - 1);
      if k == 1 {
        assert a[0] == b[0] && a[0].next == b[0].next;
      } else {
        assert a[k - 2] == a[..k - 1][k - 2] && b[k - 2] == b[..k - 1][k - 2];
        assert a[k - 2].next == b[k - 2].next;
        assert a[k - 1].next == b[k - 1].next;
      }
      assert a[..k] == a[..k - 1] + [a[k - 1]] && b[..k] == b[..k - 1] + [b[k - 1]];
    }
  }

  /** `prev` is the exact inverse of `next`, and only the head has none. */
  lemma PrevInvertsNext(first: Item?, items: seq<Item>, x: Item, y: Item)
    requires Chain(first, items) && x in items && y in items
    ensures x.next == y <==> y.prev == x
    ensures x.prev == null <==> x == first
  {
    var i :| 0 <= i < |items| && items[i] == x;
    var j :| 0 <= j < |items| && items[j] == y;
    assert items[i].next == if i + 1 < |items| then items[i + 1] else null;
    assert items[j].prev == if j > 0 then items[j - 1] else null;
    assert items[i].prev == if i > 0 then items[i - 1] else null;
  }
}
