/** An index from the keys of a linked list's items to the nodes that hold them. */
module KeyIndex {
  import opened Lists
  import opened Sequences

  /** The index maps exactly the listed keys, each to its own node. */
  ghost predicate Indexed<T, U>(keys: seq<U>, ring: seq<Node<T>>, index: map<U, Node<T>>) {
    && |ring| == |keys| + 1
    && (forall u <- keys :: u in index)
    && (forall u <- index :: u in keys && index[u] == Pos(ring, First(keys, u)))
  }

  /** Dropping u leaves every other key, at the position of its node. */
  lemma DropOther<T, U>(keys: seq<U>, ring: seq<Node<T>>, u: U, v: U)
    requires |ring| == |keys| + 1 && Distinct(keys) && u in keys
    ensures var i := First(keys, u);
            var rest := Drop(keys, i);
            && (v in rest <==> v in keys && v != u)
            && (v in rest ==> Pos(Drop(ring, i + 1), First(rest, v)) == Pos(ring, First(keys, v)))
  {
    var i := First(keys, u);
    var rest := Drop(keys, i);
    DistinctDrop(keys, i);
    if v in keys && v != u {
      var k := First(keys, v);
      DropAt(keys, i, if k < i then k else k - 1);
    }
    if v in rest {
      var k := First(rest, v);
      DropAt(keys, i, k);
      FirstIs(keys, v, if k < i then k else k + 1);
      DropAt(ring, i + 1, k + 1);
    }
  }

  lemma IndexedDrop<T, U>(keys: seq<U>, ring: seq<Node<T>>, index: map<U, Node<T>>, u: U)
    requires Indexed(keys, ring, index) && Distinct(keys) && u in keys
    ensures var i := First(keys, u);
            Indexed(Drop(keys, i), Drop(ring, i + 1), index - {u}) && u !in Drop(keys, i)
  {
    var i := First(keys, u);
    hide Drop;
    forall v <- keys
      ensures var rest := Drop(keys, i);
              && (v in rest <==> v != u)
              && (v in rest ==> Pos(Drop(ring, i + 1), First(rest, v)) == Pos(ring, First(keys, v)))
    {
      DropOther(keys, ring, u, v);
    }
    forall v <- Drop(keys, i)
      ensures v in keys
    {
      DropOther(keys, ring, u, v);
    }
  }

  lemma PutOther<T, U>(keys: seq<U>, ring: seq<Node<T>>, i: nat, u: U, n: Node<T>, v: U)
    requires |ring| == |keys| + 1 && i <= |keys| && u !in keys
    ensures var keys' := Put(keys, i, u);
            && (v in keys' <==> v == u || v in keys)
            && (v in keys' ==>
                  Pos(Put(ring, i + 1, n), First(keys', v)) == if v == u then n else Pos(ring, First(keys, v)))
  {
    var keys' := Put(keys, i, u);
    if v in keys {
      var k := First(keys, v);
      var k' := if k < i then k else k + 1;
      PutAt(keys, i, u, k');
      FirstIs(keys', v, k');
      PutAt(ring, i + 1, n, k' + 1);
    } else if v == u {
      PutAt(keys, i, u, i);
      FirstIs(keys', u, i);
      PutAt(ring, i + 1, n, i + 1);
    }
  }

  lemma IndexedPut<T, U>(keys: seq<U>, ring: seq<Node<T>>, index: map<U, Node<T>>, i: nat, u: U, n: Node<T>)
    requires Indexed(keys, ring, index) && i <= |keys| && u !in keys
    ensures Indexed(Put(keys, i, u), Put(ring, i + 1, n), index[u := n])
  {
    hide Put;
    forall v <- keys + [u]
      ensures var keys' := Put(keys, i, u);
              && v in keys'
              && Pos(Put(ring, i + 1, n), First(keys', v)) == if v == u then n else Pos(ring, First(keys, v))
    {
      PutOther(keys, ring, i, u, n, v);
    }
    forall v <- Put(keys, i, u)
      ensures v == u || v in keys
    {
      PutOther(keys, ring, i, u, n, v);
    }
  }

  lemma Rekeyed<U, X>(m: map<U, X>, u: U, x: X)
    ensures (m - {u})[u := x] == m[u := x]
  {
  }

  /** Moving key u to index p of the others, into a new node. */
  lemma IndexedMove<T, U>(keys: seq<U>, ring: seq<Node<T>>, index: map<U, Node<T>>,
                          u: U, i: nat, p: nat, n: Node<T>)
    requires |ring| == |keys| + 1 && p < |keys|
    requires Indexed(keys, ring, index) && Distinct(keys) && u in keys && i == First(keys, u)
    ensures Indexed(Put(Drop(keys, i), p, u), Put(Drop(ring, i + 1), p + 1, n), index[u := n])
  {
    hide *;
    Rekeyed(index, u, n);
    IndexedDrop(keys, ring, index, u);
    IndexedPut(Drop(keys, i), Drop(ring, i + 1), index - {u}, p, u, n);
  }
}
