/**
 Doubly linked lists with stable positions, as the scheduler's containers use `std::list`:
 nodes are inserted before a position and erased at a position, and every other node keeps
 its identity and its value, so an index from keys to nodes stays usable.
 As in the C++ library the chain is circular through one extra node, the end position.
 */
module Lists {
  import opened Sequences

  class Node<V> {
    var value: V
    var prev: Node<V>
    var next: Node<V>

    constructor Sole(value: V)
      ensures this.value == value && prev == this && next == this
    {
      this.value, prev, next := value, this, this;
    }

    constructor Between(value: V, prev: Node<V>, next: Node<V>)
      ensures this.value == value && this.prev == prev && this.next == next
    {
      this.value, this.prev, this.next := value, prev, next;
    }
  }

  /** The position with index i in a chain: node i, or the end node at the chain's head. */
  ghost function Pos<X>(ring: seq<X>, i: int): X
    requires |ring| > 0
  {
    if 0 <= i < |ring| - 1 then ring[i + 1] else ring[0]
  }

  class LinkedList<V> {
    const end: Node<V>
    /** The whole chain: the end node, then the list's nodes in order. */
    ghost var ring: seq<Node<V>>
    /** The values of the list's nodes, in order. */
    ghost var values: seq<V>
    /** The objects the list consists of. */
    ghost var Repr: set<object>

    ghost predicate Valid()
      reads this, Repr
      ensures Valid() ==> this in Repr
    {
      && this in Repr
      && (forall n <- ring :: n in Repr)
      && Linked()
      && Holds()
    }

    /** The nodes hold the values. */
    ghost predicate Holds()
      reads this, ring
    {
      && |ring| == |values| + 1
      && forall i :: 0 <= i < |values| ==> values[i] == ring[i + 1].value
    }

    /** Each node of the chain points to its neighbours. */
    ghost predicate Linked()
      reads this, ring
    {
      && |ring| > 0 && ring[0] == end
      && Distinct(ring)
      && (forall i {:trigger ring[i].next} :: 0 <= i < |ring| - 1 ==> ring[i].next == ring[i + 1])
      && (forall i {:trigger ring[i].prev} :: 1 <= i < |ring| ==> ring[i].prev == ring[i - 1])
      && ring[|ring| - 1].next == ring[0]
      && ring[0].prev == ring[|ring| - 1]
    }

    ghost function At(i: int): Node<V>
      requires |ring| > 0
      reads this
    {
      Pos(ring, i)
    }

    constructor (v: V)
      ensures Valid() && values == [] && fresh(Repr) && ring == [end]
    {
      var e := new Node.Sole(v);
      end, ring, values := e, [e], [];
      Repr := {this, e};
    }

    /** Different indices are different positions. */
    lemma Positions(i: nat, j: nat)
      requires Valid() && i <= |values| && j <= |values|
      ensures At(i) == At(j) <==> i == j
      ensures At(i) == end <==> i == |values|
    {
    }

    /** The first position. */
    method Begin() returns (n: Node<V>)
      requires Valid()
      ensures n == At(0)
    {
      n := end.next;
    }

    /** The position before the end: the last node, if there is one. */
    method Last() returns (n: Node<V>)
      requires Valid() && values != []
      ensures n == At(|values| - 1)
    {
      n := end.prev;
    }

    /** Steps to the position after the node with index i. */
    method Next(pos: Node<V>, ghost i: nat) returns (n: Node<V>)
      requires Valid() && i < |values| && pos == At(i)
      ensures n == At(i + 1)
    {
      assert pos == ring[i + 1];
      n := pos.next;
    }

    /** Steps to the position before the node with index i, which is not the first. */
    method Prev(pos: Node<V>, ghost i: nat) returns (n: Node<V>)
      requires Valid() && 0 < i < |values| && pos == At(i)
      ensures n == At(i - 1)
    {
      assert pos == ring[i + 1];
      n := pos.prev;
    }

    /** After index i wraps the chain returns to the end node. */
    static ghost function Wrap(r: seq<Node<V>>, i: nat): Node<V>
      requires i <= |r| && |r| > 0
    {
      if i == |r| then r[0] else r[i]
    }

    twostate lemma NextLinks(i: nat, new n: Node<V>)
      requires old(Linked()) && i < |old(ring)| && n !in old(ring)
      requires ring == Put(old(ring), i + 1, n)
      requires n.next == Wrap(old(ring), i + 1)
      requires forall m <- old(ring) :: m.next == if m == old(ring)[i] then n else old(m.next)
      ensures forall k {:trigger ring[k].next} :: 0 <= k < |ring| - 1 ==> ring[k].next == ring[k + 1]
      ensures ring[|ring| - 1].next == ring[0]
    {
      var was := old(ring);
      forall k {:trigger ring[k].next} | 0 <= k < |ring|
        ensures ring[k].next == Wrap(ring, k + 1)
      {
        if k <= i {
          assert ring[k] == was[k];
        } else if k > i + 1 {
          assert ring[k] == was[k - 1];
        }
      }
    }

    twostate lemma PrevLinks(i: nat, new n: Node<V>)
      requires old(Linked()) && i < |old(ring)| && n !in old(ring)
      requires ring == Put(old(ring), i + 1, n)
      requires n.prev == old(ring)[i]
      requires forall m <- old(ring) :: m.prev == if m == Wrap(old(ring), i + 1) then n else old(m.prev)
      ensures forall k {:trigger ring[k].prev} :: 1 <= k < |ring| ==> ring[k].prev == ring[k - 1]
      ensures ring[0].prev == ring[|ring| - 1]
    {
      var was := old(ring);
      forall k {:trigger ring[k].prev} | 0 <= k < |ring|
        ensures ring[k].prev == ring[if k == 0 then |ring| - 1 else k - 1]
      {
        if k <= i {
          assert ring[k] == was[k];
        } else if k > i + 1 {
          assert ring[k] == was[k - 1];
        }
      }
    }

    twostate lemma Inserted(i: nat, new n: Node<V>)
      requires old(Linked()) && i < |old(ring)| && n !in old(ring)
      requires ring == Put(old(ring), i + 1, n)
      requires n.prev == old(ring)[i] && n.next == Wrap(old(ring), i + 1)
      requires forall m <- old(ring) :: m.next == if m == old(ring)[i] then n else old(m.next)
      requires forall m <- old(ring) :: m.prev == if m == Wrap(old(ring), i + 1) then n else old(m.prev)
      ensures Linked()
    {
      DistinctPut(old(ring), i + 1, n);
      NextLinks(i, n);
      PrevLinks(i, n);
    }

    twostate lemma InsertedValues(i: nat, new n: Node<V>)
      requires old(Holds()) && i < |old(ring)|
      requires ring == Put(old(ring), i + 1, n)
      requires values == Put(old(values), i, n.value)
      requires forall m <- old(ring) :: m.value == old(m.value)
      ensures Holds()
    {
      forall k | 0 <= k < |values|
        ensures values[k] == ring[k + 1].value
      {
        if k < i {
          assert ring[k + 1] == old(ring)[k + 1] && values[k] == old(values)[k];
        } else if k > i {
          assert ring[k + 1] == old(ring)[k] && values[k] == old(values)[k - 1];
        }
      }
    }

    /** Inserts v before position pos, whose index is i. */
    method Insert(pos: Node<V>, v: V, ghost i: nat) returns (n: Node<V>)
      requires Valid() && i <= |values| && pos == At(i)
      modifies Repr
      ensures Valid() && fresh(n) && Repr == old(Repr) + {n}
      ensures ring == Put(old(ring), i + 1, n)
      ensures values == Put(old(values), i, v)
    {
      ghost var was := ring;
      var before := pos.prev;
      n := new Node.Between(v, before, pos);
      assert before == was[i] && pos == Wrap(was, i + 1);
      before.next := n;
      pos.prev := n;
      ring := Put(ring, i + 1, n);
      values := Put(values, i, v);
      Repr := Repr + {n};
      Inserted(i, n);
      InsertedValues(i, n);
    }

    twostate lemma NextUnlinks(i: nat)
      requires old(Linked()) && 1 <= i < |old(ring)|
      requires ring == Drop(old(ring), i)
      requires forall m <- old(ring) :: m.next == if m == old(ring)[i - 1] then Wrap(old(ring), i + 1) else old(m.next)
      ensures forall k {:trigger ring[k].next} :: 0 <= k < |ring| - 1 ==> ring[k].next == ring[k + 1]
      ensures ring[|ring| - 1].next == ring[0]
    {
      var was := old(ring);
      forall k {:trigger ring[k].next} | 0 <= k < |ring|
        ensures ring[k].next == Wrap(ring, k + 1)
      {
        if k < i {
          assert ring[k] == was[k];
        } else {
          assert ring[k] == was[k + 1];
        }
      }
    }

    twostate lemma PrevUnlinks(i: nat)
      requires old(Linked()) && 1 <= i < |old(ring)|
      requires ring == Drop(old(ring), i)
      requires forall m <- old(ring) :: m.prev == if m == Wrap(old(ring), i + 1) then old(ring)[i - 1] else old(m.prev)
      ensures forall k {:trigger ring[k].prev} :: 1 <= k < |ring| ==> ring[k].prev == ring[k - 1]
      ensures ring[0].prev == ring[|ring| - 1]
    {
      var was := old(ring);
      forall k {:trigger ring[k].prev} | 0 <= k < |ring|
        ensures ring[k].prev == ring[if k == 0 then |ring| - 1 else k - 1]
      {
        if k < i {
          assert ring[k] == was[k];
        } else {
          assert ring[k] == was[k + 1];
        }
      }
    }

    twostate lemma Erased(i: nat)
      requires old(Linked()) && 1 <= i < |old(ring)|
      requires ring == Drop(old(ring), i)
      requires forall m <- old(ring) :: m.next == if m == old(ring)[i - 1] then Wrap(old(ring), i + 1) else old(m.next)
      requires forall m <- old(ring) :: m.prev == if m == Wrap(old(ring), i + 1) then old(ring)[i - 1] else old(m.prev)
      ensures Linked()
    {
      DistinctDrop(old(ring), i);
      NextUnlinks(i);
      PrevUnlinks(i);
    }

    twostate lemma ErasedValues(i: nat)
      requires old(Holds()) && i < |old(values)|
      requires ring == Drop(old(ring), i + 1)
      requires values == Drop(old(values), i)
      requires forall m <- old(ring) :: m.value == old(m.value)
      ensures Holds()
    {
      forall k | 0 <= k < |values|
        ensures values[k] == ring[k + 1].value
      {
        var j := if k < i then k else k + 1;
        assert ring[k + 1] == old(ring)[j + 1] && values[k] == old(values)[j];
      }
    }

    /** Overwrites the value of the node pos, whose index is i. */
    method Assign(pos: Node<V>, v: V, ghost i: nat)
      requires Valid() && i < |values| && pos == At(i)
      modifies Repr
      ensures Valid() && Repr == old(Repr) && ring == old(ring)
      ensures values == old(values)[i := v]
    {
      assert forall k :: 1 <= k < |ring| && k != i + 1 ==> ring[k] != pos;
      pos.value := v;
      values := values[i := v];
    }

    /** Erases the node pos, whose index is i. */
    method Erase(pos: Node<V>, ghost i: nat)
      requires Valid() && i < |values| && pos == At(i)
      modifies Repr
      ensures Valid() && Repr == old(Repr)
      ensures ring == Drop(old(ring), i + 1)
      ensures values == Drop(old(values), i)
    {
      ghost var was := ring;
      var before, after := pos.prev, pos.next;
      assert pos == was[i + 1];
      assert before == was[i] && after == Wrap(was, i + 2);
      before.next := after;
      after.prev := before;
      ring := Drop(ring, i + 1);
      values := Drop(values, i);
      Erased(i + 1);
      ErasedValues(i);
    }
  }
}
