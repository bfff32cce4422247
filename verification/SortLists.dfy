/**
 The ascending sorted list with an index: an item is put with a new count by scanning
 forwards or backwards from where it was, inserting it there, and erasing its old node.
 */
module SortLists {
  import opened KeyIndex
  import opened Lists
  import opened Sequences

  datatype Counted<T> = Counted(count: nat, item: T)

  ghost predicate Ascending<T>(s: seq<Counted<T>>) {
    forall i, j :: 0 <= i < j < |s| ==> s[i].count <= s[j].count
  }

  /** The first index whose count is at least c. */
  function FirstAtLeast<T>(s: seq<Counted<T>>, from: nat, c: nat): (i: nat)
    requires from <= |s|
    ensures from <= i <= |s|
    ensures forall k :: from <= k < i ==> s[k].count < c
    ensures i < |s| ==> s[i].count >= c
    decreases |s| - from
  {
    if from == |s| || s[from].count >= c then from else FirstAtLeast(s, from + 1, c)
  }

  lemma FirstAtLeastIs<T>(s: seq<Counted<T>>, from: nat, c: nat, i: nat)
    requires from <= i <= |s|
    requires forall k :: from <= k < i ==> s[k].count < c
    requires i < |s| ==> s[i].count >= c
    ensures FirstAtLeast(s, from, c) == i
  {
  }

  /** What the list holds: its keys and their counted items, in list order. */
  datatype Contents<T, U(==)> = Contents(keys: seq<U>, items: seq<Counted<T>>) {
    ghost predicate Valid() {
      |keys| == |items| && Distinct(keys) && Ascending(items)
    }

    function Inserted(u: U, e: Counted<T>): Contents<T, U>
      requires |keys| == |items|
    {
      var p := FirstAtLeast(items, 0, e.count);
      Contents(Put(keys, p, u), Put(items, p, e))
    }

    /** Putting a listed key keeps the item listed under it, whatever item is passed. */
    function Updated(u: U, count: nat, t: T): Contents<T, U>
      requires |keys| == |items|
    {
      if u !in keys then Inserted(u, Counted(count, t))
      else
        var i := First(keys, u);
        if items[i].count == count then this
        else Contents(Drop(keys, i), Drop(items, i)).Inserted(u, Counted(count, items[i].item))
    }

    /** The refinement view: e is what is listed under u. */
    ghost predicate Maps(u: U, e: Counted<T>)
      requires |keys| == |items|
    {
      u in keys && items[First(keys, u)] == e
    }
  }

  lemma InsertedValid<T, U>(c: Contents<T, U>, u: U, e: Counted<T>)
    requires c.Valid() && u !in c.keys
    ensures c.Inserted(u, e).Valid()
  {
    DistinctPut(c.keys, FirstAtLeast(c.items, 0, e.count), u);
  }

  lemma DroppedValid<T, U>(c: Contents<T, U>, i: nat)
    requires c.Valid() && i < |c.keys|
    ensures Contents(Drop(c.keys, i), Drop(c.items, i)).Valid() && c.keys[i] !in Drop(c.keys, i)
  {
    DistinctDrop(c.keys, i);
  }

  lemma UpdatedValid<T, U>(c: Contents<T, U>, u: U, count: nat, t: T)
    requires c.Valid()
    ensures c.Updated(u, count, t).Valid()
  {
    if u !in c.keys {
      InsertedValid(c, u, Counted(count, t));
    } else {
      var i := First(c.keys, u);
      DroppedValid(c, i);
      InsertedValid(Contents(Drop(c.keys, i), Drop(c.items, i)), u, Counted(count, c.items[i].item));
    }
  }

  lemma InsertedMaps<T, U>(c: Contents<T, U>, u: U, e: Counted<T>, v: U, x: Counted<T>)
    requires c.Valid() && u !in c.keys
    ensures c.Inserted(u, e).Valid()
    ensures c.Inserted(u, e).Maps(v, x) <==> if v == u then x == e else c.Maps(v, x)
  {
    InsertedValid(c, u, e);
    var p := FirstAtLeast(c.items, 0, e.count);
    var keys := Put(c.keys, p, u);
    if v == u {
      PutAt(c.keys, p, u, p);
      PutAt(c.items, p, e, p);
      FirstOfDistinct(keys, p);
    } else if v in c.keys {
      var k := First(c.keys, v);
      var k' := if k < p then k else k + 1;
      PutAt(c.keys, p, u, k');
      PutAt(c.items, p, e, k');
      FirstOfDistinct(keys, k');
    }
  }

  lemma FirstOfDistinct<U>(s: seq<U>, i: nat)
    requires Distinct(s) && i < |s|
    ensures First(s, s[i]) == i
  {
    FirstIs(s, s[i], i);
  }

  lemma DroppedFirst<U>(keys: seq<U>, i: nat, v: U)
    requires Distinct(keys) && i < |keys|
    ensures v in Drop(keys, i) <==> v != keys[i] && v in keys
    ensures v in Drop(keys, i) ==>
              First(keys, v) == if First(Drop(keys, i), v) < i then First(Drop(keys, i), v)
                else First(Drop(keys, i), v) + 1
  {
    var rest := Drop(keys, i);
    DistinctDrop(keys, i);
    if v in keys && v != keys[i] {
      var k := First(keys, v);
      DropAt(keys, i, if k < i then k else k - 1);
    }
    if v in rest {
      var k := First(rest, v);
      DropAt(keys, i, k);
      FirstOfDistinct(keys, if k < i then k else k + 1);
    }
  }

  lemma DroppedMaps<T, U>(c: Contents<T, U>, i: nat, v: U, x: Counted<T>)
    requires c.Valid() && i < |c.keys|
    ensures Contents(Drop(c.keys, i), Drop(c.items, i)).Maps(v, x) <==> v != c.keys[i] && c.Maps(v, x)
  {
    DroppedFirst(c.keys, i, v);
    var rest := Drop(c.keys, i);
    if v in rest {
      DropAt(c.items, i, First(rest, v));
    }
  }

  /** putOrUpdate refines a map update: key u gets the new count, with its old item if it was
      listed and with t otherwise; every other key keeps its count and item. */
  lemma UpdatedMaps<T, U>(c: Contents<T, U>, u: U, count: nat, t: T, v: U, x: Counted<T>)
    requires c.Valid()
    ensures c.Updated(u, count, t).Valid()
    ensures c.Updated(u, count, t).Maps(v, x) <==>
            if v != u then c.Maps(v, x)
            else x.count == count && x.item == if u in c.keys then c.items[First(c.keys, u)].item else t
  {
    UpdatedValid(c, u, count, t);
    if u !in c.keys {
      InsertedMaps(c, u, Counted(count, t), v, x);
    } else {
      var i := First(c.keys, u);
      var rest := Contents(Drop(c.keys, i), Drop(c.items, i));
      DroppedValid(c, i);
      DroppedMaps(c, i, v, x);
      InsertedMaps(rest, u, Counted(count, c.items[i].item), v, x);
    }
  }

  /** The contents without key u. */
  function Without<T, U(==)>(c: Contents<T, U>, u: U): Contents<T, U>
    requires |c.keys| == |c.items|
  {
    if u !in c.keys then c
    else
      var i := First(c.keys, u);
      Contents(Drop(c.keys, i), Drop(c.items, i))
  }

  /** A key whose count changes goes in front of all keys with as high a count, and the others stay
      in their order; one whose count does not change stays where it is. */
  lemma UpdatedPlace<T, U>(c: Contents<T, U>, u: U, count: nat, t: T) returns (p: nat)
    requires c.Valid()
    ensures u in c.keys && c.items[First(c.keys, u)].count == count ==> c.Updated(u, count, t) == c
    ensures u !in c.keys || c.items[First(c.keys, u)].count != count ==>
              var rest, item := Without(c, u), if u in c.keys then c.items[First(c.keys, u)].item else t;
              && p <= |rest.keys| == |rest.items|
              && c.Updated(u, count, t) == Contents(Put(rest.keys, p, u), Put(rest.items, p, Counted(count, item)))
              && forall k :: 0 <= k < |rest.items| ==> (k < p <==> rest.items[k].count < count)
  {
    var rest := Without(c, u);
    p := FirstAtLeast(rest.items, 0, count);
    if u in c.keys {
      DroppedValid(c, First(c.keys, u));
    }
  }

  /** Scanning the whole list, with the old item still in it, finds the place the new item
      has in the rest of the list, or the one after it. */
  lemma PlaceBeforeErasing<T>(s: seq<Counted<T>>, i: nat, c: nat)
    requires Ascending(s) && i < |s| && s[i].count != c
    ensures var p := FirstAtLeast(s, 0, c);
            FirstAtLeast(Drop(s, i), 0, c) == if p <= i then p else p - 1
    ensures FirstAtLeast(s, 0, c) > i <==> s[i].count < c
  {
    var p := FirstAtLeast(s, 0, c);
    var p' := if p <= i then p else p - 1;
    var rest := Drop(s, i);
    forall k | 0 <= k < p'
      ensures rest[k].count < c
    {
      DropAt(s, i, k);
    }
    if p' < |rest| {
      DropAt(s, i, p');
    }
    FirstAtLeastIs(rest, 0, c, p');
  }

  lemma MovedSeqs<T, U>(keys: seq<U>, items: seq<Counted<T>>, u: U, e: Counted<T>, i: nat, p: nat)
    requires Contents(keys, items).Valid() && i < |keys| && keys[i] == u
    requires p == FirstAtLeast(Drop(items, i), 0, e.count)
    ensures Distinct(Put(Drop(keys, i), p, u)) && Ascending(Put(Drop(items, i), p, e))
  {
    var rest := Contents(Drop(keys, i), Drop(items, i));
    DroppedValid(Contents(keys, items), i);
    InsertedValid(rest, u, e);
    assert rest.Inserted(u, e) == Contents(Put(Drop(keys, i), p, u), Put(Drop(items, i), p, e));
  }

  class SortList<T, U(==)> {
    const l: LinkedList<Counted<T>>
    var index: map<U, Node<Counted<T>>>
    ghost var keys: seq<U>

    ghost function View(): Contents<T, U>
      reads this, l
    {
      Contents(keys, l.values)
    }

    ghost predicate Valid()
      reads this, l, l.Repr
    {
      && l.Valid() && this !in l.Repr
      && |keys| == |l.values| && Distinct(keys) && Ascending(l.values)
      && Indexed(keys, l.ring, index)
    }

    constructor (t: T)
      ensures Valid() && View() == Contents([], []) && fresh(l.Repr)
    {
      var list := new LinkedList(Counted(0, t));
      l, index, keys := list, map[], [];
    }

    /** The place for count, scanning forwards from begin. */
    method ScanForward(count: nat, begin: Node<Counted<T>>, ghost b: nat) returns (pos: Node<Counted<T>>)
      requires l.Valid() && b <= |l.values| && begin == l.At(b)
      requires forall k :: 0 <= k < b ==> l.values[k].count < count
      ensures pos == l.At(FirstAtLeast(l.values, 0, count))
    {
      pos := begin;
      ghost var q: nat := b;
      l.Positions(q, |l.values|);
      while pos != l.end && pos.value.count < count
        invariant q <= |l.values| && pos == l.At(q)
        invariant forall k :: 0 <= k < q ==> l.values[k].count < count
        decreases |l.values| - q
      {
        l.Positions(q, |l.values|);
        pos := l.Next(pos, q);
        q := q + 1;
      }
      l.Positions(q, |l.values|);
      FirstAtLeastIs(l.values, 0, count, q);
    }

    /** The place for count, scanning backwards from begin. */
    method ScanBackward(count: nat, begin: Node<Counted<T>>, ghost b: nat) returns (pos: Node<Counted<T>>)
      requires l.Valid() && Ascending(l.values) && b < |l.values| && begin == l.At(b)
      requires l.values[b].count >= count
      ensures pos == l.At(FirstAtLeast(l.values, 0, count))
    {
      pos := begin;
      ghost var q: nat := b;
      var first := l.Begin();
      while pos.value.count >= count
        invariant q < |l.values| && pos == l.At(q)
        invariant q + 1 < |l.values| ==> l.values[q + 1].count >= count
        decreases q
      {
        l.Positions(0, q);
        assert pos.value == l.values[q];
        if pos == first {
          FirstAtLeastIs(l.values, 0, count, 0);
          return;
        }
        pos := l.Prev(pos, q);
        q := q - 1;
      }
      assert pos.value == l.values[q];
      FirstAtLeastIs(l.values, 0, count, q + 1);
      pos := l.Next(pos, q);
    }

    /** Puts key u with a new count; a listed key keeps its item. */
    method PutOrUpdate(newCount: nat, t: T, u: U)
      requires Valid()
      modifies this, l.Repr
      ensures Valid() && fresh(l.Repr - old(l.Repr))
      ensures View() == old(View()).Updated(u, newCount, t)
    {
      if u !in index {
        InsertNew(newCount, t, u, FirstAtLeast(l.values, 0, newCount));
        return;
      }
      ghost var i := First(keys, u);
      assert index[u].value == l.values[i];
      if index[u].value.count != newCount {
        Move(newCount, index[u], u, i, FirstAtLeast(Drop(l.values, i), 0, newCount));
      }
    }

    method InsertNew(count: nat, t: T, u: U, ghost p: nat)
      requires Valid() && u !in index && p == FirstAtLeast(l.values, 0, count)
      modifies this, l.Repr
      ensures Valid() && fresh(l.Repr - old(l.Repr))
      ensures keys == Put(old(keys), p, u)
      ensures l.values == Put(old(l.values), p, Counted(count, t))
    {
      InsertedValid(View(), u, Counted(count, t));
      var was := index;
      ghost var ring, keys' := l.ring, Put(keys, p, u);
      var pos := l.Begin();
      pos := ScanForward(count, pos, 0);
      hide Put; hide FirstAtLeast; hide Indexed; hide Distinct; hide Ascending;
      var n := l.Insert(pos, Counted(count, t), p);
      IndexedPut(keys, ring, was, p, u, n);
      index, keys := was[u := n], keys';
      assert l.Valid() && Indexed(keys, l.ring, index);
    }

    /** Inserts a node with the new count for the item in node item, and erases that node. */
    method Move(count: nat, item: Node<Counted<T>>, u: U, ghost i: nat, ghost p: nat)
      requires Valid() && u in index && item == index[u] && i == First(keys, u)
      requires item.value == l.values[i] && item.value.count != count
      requires p == FirstAtLeast(Drop(l.values, i), 0, count)
      modifies this, l.Repr
      ensures Valid() && fresh(l.Repr - old(l.Repr))
      ensures keys == Put(Drop(old(keys), i), p, u)
      ensures l.values == Put(Drop(old(l.values), i), p, Counted(count, old(l.values)[i].item))
    {
      MovedSeqs(keys, l.values, u, Counted(count, l.values[i].item), i, p);
      hide FirstAtLeast; hide Put; hide Drop; hide Indexed; hide Ascending; hide Distinct; hide First;
      var was := index;
      ghost var keys', ring := Put(Drop(keys, i), p, u), l.ring;
      var n := Relocate(count, item, i, p);
      IndexedMove(keys, ring, was, u, i, p, n);
      index, keys := was[u := n], keys';
      assert Indexed(keys, l.ring, index) && Distinct(keys);
      assert Ascending(l.values);
      hide *;
    }

    method Relocate(count: nat, item: Node<Counted<T>>, ghost i: nat, ghost p: nat) returns (n: Node<Counted<T>>)
      requires l.Valid() && Ascending(l.values) && i < |l.values| && item == l.At(i)
      requires item.value == l.values[i] && item.value.count != count
      requires p == FirstAtLeast(Drop(l.values, i), 0, count)
      modifies l.Repr
      ensures l.Valid() && fresh(l.Repr - old(l.Repr))
      ensures l.ring == Put(Drop(old(l.ring), i + 1), p + 1, n)
      ensures l.values == Put(Drop(old(l.values), i), p, Counted(count, old(l.values)[i].item))
    {
      PlaceBeforeErasing(l.values, i, count);
      var pos := Scan(count, item, i);
      n := Replace(item, pos, Counted(count, item.value.item), i, p, FirstAtLeast(l.values, 0, count));
    }

    /** The place for an item whose count changes, scanning from its node. */
    method Scan(count: nat, item: Node<Counted<T>>, ghost i: nat) returns (pos: Node<Counted<T>>)
      requires l.Valid() && Ascending(l.values) && i < |l.values| && item == l.At(i)
      requires item.value == l.values[i] && item.value.count != count
      ensures pos == l.At(FirstAtLeast(l.values, 0, count))
    {
      PlaceBeforeErasing(l.values, i, count);
      if item.value.count < count {
        pos := ScanForward(count, item, i);
      } else {
        pos := ScanBackward(count, item, i);
      }
    }

    /** Inserts e at pos, whose index is q, and erases node item. */
    method Replace(item: Node<Counted<T>>, pos: Node<Counted<T>>, e: Counted<T>,
                   ghost i: nat, ghost p: nat, ghost q: nat)
      returns (n: Node<Counted<T>>)
      requires l.Valid() && i < |l.values| && item == l.At(i) && q <= |l.values| && pos == l.At(q)
      requires p == if q <= i then q else q - 1
      modifies l.Repr
      ensures l.Valid() && fresh(l.Repr - old(l.Repr))
      ensures l.ring == Put(Drop(old(l.ring), i + 1), p + 1, n)
      ensures l.values == Put(Drop(old(l.values), i), p, e)
    {
      hide Put; hide Drop;
      ghost var ring, values, k := l.ring, l.values, if q <= i then i + 1 else i;
      n := l.Insert(pos, e, q);
      Replaced(ring, i + 1, q + 1, n, k + 1, p + 1);
      Replaced(values, i, q, e, k, p);
      l.Erase(item, k);
    }
  }
}
