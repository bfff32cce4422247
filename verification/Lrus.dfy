/**
 The least-recently-used list: items in a linked list, an index from keys to their nodes.
 The ghost fields record the keys in list order and every access so far.
 */
module Lrus {
  import opened KeyIndex
  import opened Lists
  import opened LruSpec
  import opened Sequences

  class LRU<T, U(==)> {
    const l: LinkedList<T>
    var index: map<U, Node<T>>
    ghost var keys: seq<U>
    ghost var history: seq<U>

    ghost predicate Valid()
      reads this, l, l.Repr
    {
      && l.Valid() && this !in l.Repr
      && keys == KeepLast(history)
      && Indexed(keys, l.ring, index)
    }

    constructor (t: T)
      ensures Valid() && history == [] && fresh(l.Repr)
    {
      var list := new LinkedList(t);
      l, index, keys, history := list, map[], [], [];
    }

    /** Puts t, under key u, at the back; an item listed under u before leaves the list. */
    method Access(t: T, u: U)
      requires Valid()
      modifies this, l.Repr
      ensures Valid() && fresh(l.Repr - old(l.Repr))
      ensures history == old(history) + [u]
      ensures keys == LruSpec.Access(old(keys), u)
      ensures l.values == (if u in old(keys) then Drop(old(l.values), First(old(keys), u)) else old(l.values)) + [t]
    {
      OldestFirst(history);
      AccessKeepsLast(history, u);
      hide KeepLast; hide First; hide Drop; hide Indexed;
      SameKeys(keys, l.ring, index);
      SameLength(keys, l.ring, index);
      var was := index;
      ghost var rest := keys;
      if u in was {
        ghost var i := First(keys, u);
        IndexedDrop(keys, l.ring, index, u);
        l.Erase(was[u], i);
        rest, was := Drop(rest, i), was - {u};
      }
      Add(t, u, was, rest);
    }

    method Add(t: T, u: U, was: map<U, Node<T>>, ghost rest: seq<U>)
      requires l.Valid() && this !in l.Repr
      requires Indexed(rest, l.ring, was) && u !in rest
      modifies this, l.Repr
      ensures l.Valid() && fresh(l.Repr - old(l.Repr)) && this !in l.Repr
      ensures history == old(history) + [u] && keys == rest + [u]
      ensures Indexed(keys, l.ring, index)
      ensures l.values == old(l.values) + [t]
    {
      hide Indexed;
      ghost var ring := l.ring;
      SameLength(rest, l.ring, was);
      var n := l.Insert(l.end, t, |l.values|);
      IndexedPut(rest, ring, was, |rest|, u, n);
      assert Put(rest, |rest|, u) == rest + [u];
      index, keys, history := was[u := n], rest + [u], history + [u];
    }

    /** The items, least recently used first. */
    method GetSortedItem() returns (items: seq<T>)
      requires Valid()
      ensures items == l.values
    {
      items := [];
      var i := l.Begin();
      l.Positions(0, |l.values|);
      while i != l.end
        invariant |items| <= |l.values| && items == l.values[..|items|]
        invariant i == l.At(|items|)
        decreases |l.values| - |items|
      {
        l.Positions(|items|, |l.values|);
        items := items + [i.value];
        i := l.Next(i, |items| - 1);
        l.Positions(|items|, |l.values|);
      }
    }
  }

  lemma SameLength<T, U>(keys: seq<U>, ring: seq<Node<T>>, index: map<U, Node<T>>)
    requires Indexed(keys, ring, index)
    ensures |ring| == |keys| + 1
  {
  }

  lemma SameKeys<T, U>(keys: seq<U>, ring: seq<Node<T>>, index: map<U, Node<T>>)
    requires Indexed(keys, ring, index)
    ensures forall v :: (v in index <==> v in keys) && (v in index ==> index[v] == Pos(ring, First(keys, v)))
  {
  }
}
