/**
 A function's task list as the scheduler stores it: a linked list of (count, task) nodes,
 an index from tasks to their nodes, and a cursor at the first task that is not full.
 Every method is proved to compute the sequence function of `TListSpec` it stands for.
 */
module TSortLists {
  import opened Lists
  import opened Sequences
  import opened TListSpec

  type Chain = seq<Node<Entry>>
  type Index = map<TId, Node<Entry>>

  /** The index maps exactly the listed tasks, each to its own node. */
  ghost predicate Indexed(s: seq<Entry>, ring: Chain, index: Index) {
    && |ring| == |s| + 1
    && forall t :: (t in index <==> Has(s, t)) && (t in index ==> index[t] == Pos(ring, IndexOf(s, t)))
  }

  /** The representation invariant: s is well formed, indexed, and next is its cursor. */
  ghost predicate Rep(s: seq<Entry>, max: int, ring: Chain, index: Index, next: Node<Entry>) {
    && max >= 1
    && Ok(s, max)
    && Indexed(s, ring, index)
    && next == Pos(ring, Cursor(s, max))
  }

  lemma InsertPosition(s: seq<Entry>, ring: Chain, i: nat, e: Entry, n: Node<Entry>, t: TId)
    requires |ring| == |s| + 1 && i <= |s| && !Has(s, e.t)
    ensures Has(Put(s, i, e), t) <==> t == e.t || Has(s, t)
    ensures Has(Put(s, i, e), t) ==>
              Pos(Put(ring, i + 1, n), IndexOf(Put(s, i, e), t)) ==
              if t == e.t then n else Pos(ring, IndexOf(s, t))
  {
    InsertIndex(s, i, e, t);
  }

  lemma IndexedInsert(s: seq<Entry>, ring: Chain, index: Index, i: nat, e: Entry, n: Node<Entry>)
    requires Indexed(s, ring, index) && i <= |s| && e.t !in index
    ensures Indexed(Put(s, i, e), Put(ring, i + 1, n), index[e.t := n])
  {
    forall t
      ensures var ring' := Put(ring, i + 1, n);
              var index' := index[e.t := n];
              var s' := Put(s, i, e);
              (t in index' <==> Has(s', t)) && (t in index' ==> index'[t] == Pos(ring', IndexOf(s', t)))
    {
      InsertPosition(s, ring, i, e, n, t);
    }
  }

  lemma RemovePosition(s: seq<Entry>, max: int, ring: Chain, i: nat, t: TId)
    requires |ring| == |s| + 1 && Ok(s, max) && i < |s|
    ensures Has(Drop(s, i), t) <==> t != s[i].t && Has(s, t)
    ensures Has(Drop(s, i), t) ==>
              Pos(Drop(ring, i + 1), IndexOf(Drop(s, i), t)) == Pos(ring, IndexOf(s, t))
  {
    RemoveIndex(s, i, t);
  }

  lemma IndexedRemove(s: seq<Entry>, max: int, ring: Chain, index: Index, i: nat)
    requires Indexed(s, ring, index) && Ok(s, max) && i < |s|
    ensures Indexed(Drop(s, i), Drop(ring, i + 1), index - {s[i].t})
  {
    forall t
      ensures var ring' := Drop(ring, i + 1);
              var index' := index - {s[i].t};
              var s' := Drop(s, i);
              (t in index' <==> Has(s', t)) && (t in index' ==> index'[t] == Pos(ring', IndexOf(s', t)))
    {
      RemovePosition(s, max, ring, i, t);
    }
  }

  lemma FirstAtMostIs(s: seq<Entry>, from: nat, c: int, i: nat)
    requires from <= i <= |s|
    requires forall k :: from <= k < i ==> s[k].count > c
    requires i < |s| ==> s[i].count <= c
    ensures FirstAtMost(s, from, c) == i
  {
  }

  lemma NewCursor(s: seq<Entry>, max: int, t: TId, count: int)
    requires Ok(s, max) && 0 <= count <= max
    ensures Cursor(New(s, max, t, count), max) == if count == max then Cursor(s, max) + 1 else Cursor(s, max)
  {
    var s', c := New(s, max, t, count), Cursor(s, max);
    hide FirstAtMost;
    FirstAtMostIs(s', 0, max - 1, if count == max then c + 1 else c);
  }

  lemma RepNew(s: seq<Entry>, max: int, ring: Chain, index: Index, next: Node<Entry>,
               t: TId, count: int, n: Node<Entry>)
    requires Rep(s, max, ring, index, next) && t !in index && 0 <= count <= max
    ensures var q := NewPosition(s, max, count);
            var front := q == Cursor(s, max) && count != max;
            Rep(New(s, max, t, count), max, Put(ring, q + 1, n), index[t := n],
                if front then n else next)
  {
    NewOk(s, max, t, count);
    NewCursor(s, max, t, count);
    IndexedInsert(s, ring, index, NewPosition(s, max, count), Entry(count, t), n);
  }

  /** The chain with node i taken out and node n put at index p. */
  ghost function Moved(ring: Chain, i: nat, p: nat, n: Node<Entry>): Chain
    requires i < |ring| - 1 && p < |ring| - 1
  {
    var rest := Drop(ring, i + 1);
    Put(rest, p + 1, n)
  }

  /** Where the cursor is once the entry at index i has dropped. */
  ghost function DroppedCursor(s: seq<Entry>, max: int, i: nat): int {
    if i < Cursor(s, max) then Cursor(s, max) - 1 else Cursor(s, max)
  }

  lemma RestCursor(s: seq<Entry>, max: int, i: nat)
    requires Ok(s, max) && i < |s|
    ensures Cursor(Drop(s, i), max) == DroppedCursor(s, max, i)
  {
    var rest, c := Drop(s, i), DroppedCursor(s, max, i);
    forall k | 0 <= k < c
      ensures rest[k].count > max - 1
    {
      DropAt(s, i, k);
    }
    if c < |rest| {
      DropAt(s, i, c);
    }
    FirstAtMostIs(rest, 0, max - 1, c);
  }

  lemma DropCursor(s: seq<Entry>, max: int, i: nat, count: int)
    requires Ok(s, max) && i < |s| && 0 <= count < s[i].count
    ensures DropPosition(s, max, i, count) >= DroppedCursor(s, max, i)
    ensures Cursor(Update(s, max, s[i].t, count), max) == DroppedCursor(s, max, i)
  {
    var rest, p := Drop(s, i), DropPosition(s, max, i, count);
    RestCursor(s, max, i);
    IndexInOk(s, max, i);
    RemoveSorted(s, max, i);
    var c := Cursor(rest, max);
    var s' := Put(rest, p, Entry(count, s[i].t));
    assert forall k :: 0 <= k < c ==> s'[k] == rest[k];
    FirstAtMostIs(s', 0, max - 1, c);
  }

  /** The cursor's node once task t, at index i, has dropped and sits in the new node n. */
  ghost function NextAfterDrop(s: seq<Entry>, max: int, ring: Chain, next: Node<Entry>,
                               i: nat, count: int, n: Node<Entry>): Node<Entry>
    requires i < |s| && |ring| > 0
  {
    if DropPosition(s, max, i, count) == DroppedCursor(s, max, i) then n
    else if i == Cursor(s, max) then Pos(ring, i + 1)
    else next
  }

  lemma IndexedDrop(s: seq<Entry>, max: int, ring: Chain, index: Index, t: TId, p: nat, e: Entry, n: Node<Entry>)
    requires Indexed(s, ring, index) && Ok(s, max) && Has(s, t) && p < |s| && e.t == t
    ensures var i := IndexOf(s, t);
            Indexed(Put(Drop(s, i), p, e), Moved(ring, i, p, n), index[t := n])
  {
    var i := IndexOf(s, t);
    IndexedRemove(s, max, ring, index, i);
    IndexedInsert(Drop(s, i), Drop(ring, i + 1), index - {t}, p, e, n);
    assert (index - {t})[t := n] == index[t := n];
  }

  lemma MovedPos(ring: Chain, i: nat, p: nat, n: Node<Entry>, j: int)
    requires i < |ring| - 1 && p < |ring| - 1 && 0 <= j <= p
    ensures Pos(Moved(ring, i, p, n), j) == if j == p then n else Pos(ring, if j < i then j else j + 1)
  {
  }

  lemma NextDrop(ring: Chain, c: nat, i: nat, p: nat, n: Node<Entry>)
    requires i < |ring| - 1 && p < |ring| - 1
    requires p >= if i < c then c - 1 else c
    ensures var c' := if i < c then c - 1 else c;
            Pos(Moved(ring, i, p, n), c') ==
            if p == c' then n else if i == c then Pos(ring, i + 1) else Pos(ring, c)
  {
    MovedPos(ring, i, p, n, if i < c then c - 1 else c);
  }

  lemma AdjustIsTake(s: seq<Entry>, max: int)
    requires Ok(s, max) && Cursor(s, max) < |s|
    ensures var t := s[Cursor(s, max)].t;
            Has(s, t) && 0 <= CountOf(s, t) < max && Adjust(s, max, t, 1) == TListSpec.TakeOne(s, max)
  {
    IndexInOk(s, max, Cursor(s, max));
  }

  lemma Ringed(s: seq<Entry>, ring: Chain, index: Index)
    requires Indexed(s, ring, index)
    ensures |ring| == |s| + 1
  {
  }

  lemma RepDrop(s: seq<Entry>, max: int, ring: Chain, index: Index, next: Node<Entry>,
                t: TId, count: int, n: Node<Entry>)
    requires Rep(s, max, ring, index, next) && Has(s, t) && 0 <= count < s[IndexOf(s, t)].count
    ensures var i := IndexOf(s, t);
            Rep(Update(s, max, t, count), max, Moved(ring, i, DropPosition(s, max, i, count), n), index[t := n],
                NextAfterDrop(s, max, ring, next, i, count, n))
    ensures var i := IndexOf(s, t);
            NextAfterDrop(s, max, ring, next, i, count, n) ==
            Pos(Moved(ring, i, DropPosition(s, max, i, count), n), DroppedCursor(s, max, i))
  {
    hide Ok; hide Indexed; hide FirstAtMost; hide IndexFrom; hide Moved; hide DropPosition; hide Drop; hide Put;
    hide Changed;
    var i := IndexOf(s, t);
    assert |ring| == |s| + 1 by { Ringed(s, ring, index); }
    DropOk(s, max, t, count);
    DropCursor(s, max, i, count);
    NextDrop(ring, Cursor(s, max), i, DropPosition(s, max, i, count), n);
    IndexedDrop(s, max, ring, index, t, DropPosition(s, max, i, count), Entry(count, t), n);
  }

  lemma SeekDrop(s: seq<Entry>, max: int, i: nat, count: int)
    requires Ok(s, max) && i < |s| && 0 <= count < s[i].count
    requires i == Cursor(s, max) ==> count > 0
    ensures FirstAtMost(s, i + 1, count) == DropPosition(s, max, i, count) + 1
    ensures FirstAtMost(Drop(s, i), i, count) == DropPosition(s, max, i, count)
  {
    var rest, p := Drop(s, i), DropPosition(s, max, i, count);
    forall k | 0 <= k < i
      ensures rest[k].count > count
    {
      DropAt(s, i, k);
    }
    FirstAtMostIs(rest, i, count, p);
    forall k | i < k < p + 1
      ensures s[k].count > count
    {
      DropAt(s, i, k - 1);
    }
    if p < |rest| {
      DropAt(s, i, p);
    }
    FirstAtMostIs(s, i + 1, count, p + 1);
  }

  /** A task away from the cursor that stays at least as full as the cursor's task was full,
      and goes right in front of it. */
  lemma PassingCase(s: seq<Entry>, max: int, i: nat, count: int)
    requires Ok(s, max) && i < |s| && i != Cursor(s, max) < |s| && s[Cursor(s, max)].count <= count < s[i].count
    ensures i < Cursor(s, max) && DropPosition(s, max, i, count) == Cursor(s, max) - 1
  {
    var rest, c := Drop(s, i), Cursor(s, max);
    PassesCursorIffWasFull(s, max, i, count);
    assert i < c && rest[c - 1] == s[c];
    assert forall k :: 0 <= k < c - 1 ==> rest[k].count == max;
    FirstAtMostIs(rest, 0, count, c - 1);
  }

  /** Any other task away from the cursor goes behind the cursor's task. */
  lemma BehindCase(s: seq<Entry>, max: int, i: nat, count: int)
    requires Ok(s, max) && i < |s| && i != Cursor(s, max) < |s| && count < s[i].count
    requires 0 <= count < s[Cursor(s, max)].count
    ensures DropPosition(s, max, i, count) == FirstAtMost(Drop(s, i), i, count) > DroppedCursor(s, max, i)
  {
    hide FirstAtMost; hide DropPosition; hide Ok; hide Update; hide Put; hide Drop;
    var d := DroppedCursor(s, max, i);
    DropCursor(s, max, i, count);
    SeekDrop(s, max, i, count);
    DropAt(s, i, d);
  }

  /** Where a task away from the cursor goes: behind everything when all were full, before
      the cursor's task when it is still at least as full, behind that task otherwise. */
  lemma RelocateCases(s: seq<Entry>, max: int, i: nat, count: int)
    requires Ok(s, max) && i < |s| && i != Cursor(s, max) && 0 <= count < s[i].count
    ensures var c, p := Cursor(s, max), DropPosition(s, max, i, count);
            if c == |s| then p == |s| - 1 == DroppedCursor(s, max, i)
            else if count < s[c].count then p == FirstAtMost(Drop(s, i), i, count) > DroppedCursor(s, max, i)
            else i < c && p == c - 1 == DroppedCursor(s, max, i)
  {
    var c := Cursor(s, max);
    if c == |s| {
      DropCursor(s, max, i, count);
    } else if count < s[c].count {
      BehindCase(s, max, i, count);
    } else {
      PassingCase(s, max, i, count);
    }
  }

  lemma RepRaise(s: seq<Entry>, max: int, ring: Chain, index: Index, next: Node<Entry>, count: int)
    requires Rep(s, max, ring, index, next) && Cursor(s, max) < |s|
    requires s[Cursor(s, max)].count <= count <= max
    ensures var c := Cursor(s, max);
            Rep(s[c := Entry(count, s[c].t)], max, ring, index, if count == max then Pos(ring, c + 1) else next)
  {
    var c := Cursor(s, max);
    var s' := s[c := Entry(count, s[c].t)];
    RaiseOk(s, max, c, count);
    FirstAtMostIs(s', 0, max - 1, if count == max then c + 1 else c);
    forall t
      ensures IndexOf(s', t) == IndexOf(s, t)
    {
      SameIndex(s, s', t);
    }
  }

  lemma SameIndex(s: seq<Entry>, s': seq<Entry>, t: TId)
    requires |s| == |s'| && forall k :: 0 <= k < |s| ==> s[k].t == s'[k].t
    ensures IndexOf(s', t) == IndexOf(s, t)
  {
    var i := IndexOf(s, t);
    if i < |s| {
      IndexIs(s', i);
    }
  }

  lemma RepTakeIdle(s: seq<Entry>, max: int, ring: Chain, index: Index, next: Node<Entry>)
    requires Rep(s, max, ring, index, next) && IdleAtBack(s)
    ensures var k := |s| - 1;
            && Cursor(s, max) <= k
            && TakeIdle(s) == Drop(s, k)
            && Rep(TakeIdle(s), max, Drop(ring, k + 1), index - {s[k].t},
                   if Cursor(s, max) == k then ring[0] else next)
  {
    var k := |s| - 1;
    assert TakeIdle(s) == Drop(s, k);
    RemoveSorted(s, max, k);
    RestCursor(s, max, k);
    IndexedRemove(s, max, ring, index, k);
  }

  lemma UpdateSame(s: seq<Entry>, max: int, t: TId)
    requires Has(s, t)
    ensures Update(s, max, t, CountOf(s, t)) == s
  {
  }

  lemma SuccessorPos(ring: Chain, i: nat)
    requires i < |ring| - 1
    ensures Pos(Drop(ring, i + 1), i) == Pos(ring, i + 1)
  {
  }

  lemma ErasedPos(ring: Chain, i: nat, j: int)
    requires i < |ring| - 1 && j < |ring| - 1
    ensures j >= i ==> Pos(Drop(ring, i + 1), j) == Pos(ring, j + 1)
  {
  }

  class TSortList {
    const l: LinkedList<Entry>
    const maxValue: int
    var index: map<TId, Node<Entry>>
    var nextT: Node<Entry>

    ghost function Items(): seq<Entry>
      reads l
    {
      l.values
    }

    ghost predicate Valid()
      reads this, l, l.Repr
    {
      && l.Valid() && this !in l.Repr
      && Rep(Items(), maxValue, l.ring, index, nextT)
    }

    constructor (concurrency: int)
      requires concurrency >= 1
      ensures Valid() && Items() == [] && maxValue == concurrency && fresh(l.Repr)
    {
      var list := new LinkedList(Entry(0, 0));
      l, maxValue, index, nextT := list, concurrency, map[], list.end;
    }

    /** The first position, not before i, whose count is at most count. */
    method Seek(i: Node<Entry>, count: int, ghost from: nat) returns (p: Node<Entry>)
      requires l.Valid() && from <= |Items()| && i == l.At(from)
      ensures p == l.At(FirstAtMost(Items(), from, count))
    {
      p := i;
      ghost var q := from;
      while p != l.end && count < p.value.count
        invariant from <= q <= |Items()| && p == l.At(q)
        invariant FirstAtMost(Items(), from, count) == FirstAtMost(Items(), q, count)
        decreases |Items()| - q
      {
        p := l.Next(p, q);
        q := q + 1;
      }
    }

    /** Where newT puts a task, and whether it becomes the next one to take. */
    method Locate(count: int) returns (pos: Node<Entry>, next: bool)
      requires Valid() && 0 <= count <= maxValue
      ensures pos == l.At(NewPosition(Items(), maxValue, count))
      ensures next <==> NewPosition(Items(), maxValue, count) == Cursor(Items(), maxValue) && count != maxValue
    {
      ghost var c := Cursor(Items(), maxValue);
      l.Positions(c, |Items()|);
      if count == 0 || (count != maxValue && nextT == l.end) {
        pos, next := l.end, nextT == l.end;
      } else if count == maxValue {
        pos := l.Begin();
        next := false;
      } else if count > nextT.value.count {
        pos, next := nextT, true;
      } else {
        pos := l.Next(nextT, c);
        pos := Seek(pos, count, c + 1);
        next := false;
      }
    }

    /** Adds a task that has no entry yet. */
    method NewT(count: int, t: TId)
      requires Valid() && t !in index && 0 <= count <= maxValue
      modifies this, l.Repr
      ensures Valid() && fresh(l.Repr - old(l.Repr))
      ensures Items() == New(old(Items()), maxValue, t, count)
    {
      hide Rep; hide Put; hide Drop;
      var was, wasNext := index, nextT;
      ghost var s, ring, q := Items(), l.ring, NewPosition(Items(), maxValue, count);
      var pos, next := Locate(count);
      var n := l.Insert(pos, Entry(count, t), q);
      RepNew(s, maxValue, ring, was, wasNext, t, count, n);
      index, nextT := was[t := n], if next then n else wasNext;
    }

    /** Inserts e before position pos and then erases the earlier node `from`; after is the
        position that then has the erased node's index. */
    method Move(from: Node<Entry>, pos: Node<Entry>, e: Entry, ghost k: nat, ghost q: nat)
      returns (n: Node<Entry>, after: Node<Entry>)
      requires l.Valid() && k < q <= |Items()| && from == l.At(k) && pos == l.At(q)
      modifies l.Repr
      ensures l.Valid() && fresh(l.Repr - old(l.Repr))
      ensures l.ring == Moved(old(l.ring), k, q - 1, n)
      ensures Items() == Put(Drop(old(Items()), k), q - 1, e)
      ensures after == l.At(k)
    {
      hide Put; hide Drop;
      ghost var ring, values := l.ring, l.values;
      n := l.Insert(pos, e, q);
      PutAt(ring, q + 1, n, k + 1);
      after := l.Next(from, k);
      PutThenDrop(ring, k + 1, q + 1, n);
      PutThenDrop(values, k, q, e);
      SuccessorPos(l.ring, k);
      l.Erase(from, k);
    }

    /** Where the cursor's task goes when it drops to count. */
    method SeekNext(count: int, ghost k: nat) returns (pos: Node<Entry>)
      requires l.Valid() && Ok(Items(), maxValue)
      requires k < |Items()| && k == Cursor(Items(), maxValue) && nextT == l.At(k)
      requires 0 <= count < Items()[k].count
      ensures pos == l.At(DropPosition(Items(), maxValue, k, count) + 1)
    {
      hide Rep; hide Put; hide Drop; hide FirstAtMost;
      pos := l.end;
      if count != 0 {
        SeekDrop(Items(), maxValue, k, count);
        pos := l.Next(nextT, k);
        pos := Seek(pos, count, k + 1);
      }
    }

    /** What the index says about a task. */
    lemma Node(t: TId)
      requires Valid() && t in index
      ensures Has(Items(), t) && index[t] == l.At(IndexOf(Items(), t))
      ensures index[t].value == Items()[IndexOf(Items(), t)]
      ensures index[t] == nextT <==> IndexOf(Items(), t) == Cursor(Items(), maxValue)
    {
      l.Positions(IndexOf(Items(), t), Cursor(Items(), maxValue));
    }

    /** The cursor's task drops to count. */
    method DropNext(count: int, t: TId)
      requires Valid() && t in index && index[t] == nextT && 0 <= count < nextT.value.count
      modifies this, l.Repr
      ensures Valid() && fresh(l.Repr - old(l.Repr))
      ensures Items() == Update(old(Items()), maxValue, t, count)
    {
      Node(t);
      var was, node := index, nextT;
      ghost var s, ring, k := Items(), l.ring, IndexOf(Items(), t);
      ghost var p := DropPosition(s, maxValue, k, count);
      var pos := SeekNext(count, k);
      hide Rep; hide Put; hide Drop; hide FirstAtMost; hide IndexFrom; hide DropPosition;
      var n, after := Move(node, pos, Entry(count, t), k, p + 1);
      RepDrop(s, maxValue, ring, was, node, t, count, n);
      index, nextT := was[t := n], after;
    }

    /** A task away from the cursor drops to count. */
    method DropOther(count: int, t: TId)
      requires Valid() && t in index && index[t] != nextT && 0 <= count < index[t].value.count
      modifies this, l.Repr
      ensures Valid() && fresh(l.Repr - old(l.Repr))
      ensures Items() == Update(old(Items()), maxValue, t, count)
    {
      hide Rep; hide Put; hide Drop;
      Node(t);
      var was, node, next := index, index[t], nextT;
      ghost var s, ring, k := Items(), l.ring, IndexOf(Items(), t);
      ghost var p := DropPosition(s, maxValue, k, count);
      var n, passes := Relocate(node, count, t, k);
      RepDrop(s, maxValue, ring, was, next, t, count, n);
      index, nextT := was[t := n], if passes then n else next;
    }

    /** Moves the node of a task away from the cursor to where count belongs; passes tells
        whether it is now the first that is not full. */
    method Relocate(node: Node<Entry>, count: int, t: TId, ghost k: nat) returns (n: Node<Entry>, passes: bool)
      requires Valid() && k < |Items()| && node == l.At(k) && 0 <= count < Items()[k].count
      requires k != Cursor(Items(), maxValue)
      modifies l.Repr
      ensures l.Valid() && fresh(l.Repr - old(l.Repr)) && this !in l.Repr
      ensures var p := DropPosition(old(Items()), maxValue, k, count);
              && l.ring == Moved(old(l.ring), k, p, n)
              && Items() == Put(Drop(old(Items()), k), p, Entry(count, t))
              && (passes <==> p == DroppedCursor(old(Items()), maxValue, k))
    {
      hide Ok; hide Indexed; hide Put; hide Drop;
      ghost var c := Cursor(Items(), maxValue);
      RelocateCases(Items(), maxValue, k, count);
      l.Positions(c, |Items()|);
      if nextT == l.end {
        ghost var after;
        n, after := Move(node, l.end, Entry(count, t), k, |Items()|);
        passes := true;
      } else {
        passes := count >= nextT.value.count;
        n := EraseAndInsert(node, nextT, passes, Entry(count, t), k, c,
                              DropPosition(Items(), maxValue, k, count));
      }
    }

    /** Erases node and inserts e in front of next, or after it in front of the first count
        that is not larger. */
    method EraseAndInsert(node: Node<Entry>, next: Node<Entry>, passes: bool, e: Entry,
                          ghost k: nat, ghost c: nat, ghost p: nat)
      returns (n: Node<Entry>)
      requires l.Valid() && k < |Items()| && node == l.At(k)
      requires c < |Items()| && next == l.At(c) && (passes ==> k < c)
      requires p == if passes then c - 1 else FirstAtMost(Drop(Items(), k), k, e.count)
      modifies l.Repr
      ensures l.Valid() && fresh(l.Repr - old(l.Repr))
      ensures l.ring == Moved(old(l.ring), k, p, n)
      ensures Items() == Put(Drop(old(Items()), k), p, e)
    {
      hide FirstAtMost;
      ErasedPos(l.ring, k, k);
      ErasedPos(l.ring, k, c - 1);
      var after := l.Next(node, k);
      l.Erase(node, k);
      var pos := next;
      if !passes {
        pos := Seek(after, e.count, k);
      }
      n := l.Insert(pos, e, p);
    }

    /** The cursor's task rises to count. */
    method RaiseNext(count: int, t: TId)
      requires Valid() && t in index && index[t] == nextT && nextT.value.count <= count <= maxValue
      modifies this, l.Repr
      ensures Valid() && fresh(l.Repr - old(l.Repr))
      ensures Items() == Update(old(Items()), maxValue, t, count)
    {
      Node(t);
      hide Rep;
      var was, next := index, nextT;
      ghost var k := IndexOf(Items(), t);
      RepRaise(Items(), maxValue, l.ring, was, next, count);
      l.Assign(next, Entry(count, t), k);
      if count == maxValue {
        next := l.Next(next, k);
      }
      nextT := next;
    }

    /** Sets the count of a listed task; only the cursor's task may rise. */
    method UpdateT(count: int, t: TId)
      requires Valid() && t in index && 0 <= count <= maxValue
      requires index[t] != nextT ==> count <= index[t].value.count
      modifies this, l.Repr
      ensures Valid() && fresh(l.Repr - old(l.Repr))
      ensures Items() == Update(old(Items()), maxValue, t, count)
    {
      Node(t);
      if count == index[t].value.count {
        assert Items() == Update(Items(), maxValue, t, count);
        return;
      }
      if index[t] == nextT {
        if count >= index[t].value.count {
          RaiseNext(count, t);
        } else {
          DropNext(count, t);
        }
      } else {
        DropOther(count, t);
      }
    }

    /** Adds increment to the count of task t, or lists t with that count. */
    method PutOrUpdate(increment: int, t: TId)
      requires Valid() && -maxValue <= increment <= maxValue
      requires t !in index ==> increment >= 0
      requires t in index ==> 0 <= CountOf(Items(), t) + increment <= maxValue
      requires t in index && increment > 0 ==> nextT != l.end && t == nextT.value.t
      modifies this, l.Repr
      ensures Valid() && fresh(l.Repr - old(l.Repr))
      ensures Items() == Adjust(old(Items()), maxValue, t, increment)
    {
      hide Update; hide New; hide IndexFrom; hide FirstAtMost; hide Ok;
      assert t in index <==> Has(Items(), t);
      if t !in index {
        hide Rep;
        NewT(increment, t);
        return;
      }
      Node(t);
      if increment == 0 {
        UpdateSame(Items(), maxValue, t);
        return;
      }
      if increment > 0 {
        NextIs(t);
      }
      hide Rep;
      UpdateT(index[t].value.count + increment, t);
    }

    /** The cursor's task, when there is one. */
    lemma NextIs(t: TId)
      requires Valid() && t in index && nextT != l.end && t == nextT.value.t
      ensures index[t] == nextT
    {
      var c := Cursor(Items(), maxValue);
      l.Positions(c, |Items()|);
      IndexInOk(Items(), maxValue, c);
    }

    /** A listed task counts at most the maximum, and the cursor's task less. */
    lemma Room(t: TId, take: bool)
      requires Valid() && t in index && (take ==> nextT != l.end && t == nextT.value.t)
      ensures 0 <= CountOf(Items(), t) + (if take then 1 else 0) <= maxValue
    {
      HasIsCounted(Items(), maxValue, t);
      if take {
        NextIs(t);
        Node(t);
      }
    }

    /** Lists a task, with one request outstanding if it is taken at once; one that is listed
        already must be the cursor's to be taken. */
    method NewOne(t: TId, take: bool)
      requires Valid() && (t in index && take ==> nextT != l.end && t == nextT.value.t)
      modifies this, l.Repr
      ensures Valid() && fresh(l.Repr - old(l.Repr))
      ensures Items() == Adjust(old(Items()), maxValue, t, if take then 1 else 0)
    {
      hide Adjust; hide FirstAtMost; hide IndexFrom;
      if t in index {
        Room(t, take);
      }
      PutOrUpdate(if take then 1 else 0, t);
    }

    /** Removes an idle task from the list, if there is one. */
    method TakeIdleOne() returns (ok: bool, t: TId)
      requires Valid()
      modifies this, l.Repr
      ensures Valid() && fresh(l.Repr - old(l.Repr))
      ensures ok <==> IdleAtBack(old(Items()))
      ensures ok ==> t == old(Items())[|old(Items())| - 1].t && Items() == TakeIdle(old(Items()))
      ensures !ok ==> Items() == old(Items())
    {
      ok, t := false, 0;
      var first := l.Begin();
      l.Positions(0, 0);
      if first == l.end {
        return;
      }
      var back := l.Last();
      assert back.value == Items()[|Items()| - 1];
      if back.value.count == 0 {
        ok, t := true, back.value.t;
        PopBack(back);
      }
    }

    method PopBack(back: Node<Entry>)
      requires Valid() && IdleAtBack(Items()) && back == l.At(|Items()| - 1)
      modifies this, l.Repr
      ensures Valid() && fresh(l.Repr - old(l.Repr))
      ensures Items() == TakeIdle(old(Items()))
    {
      IdleIsBehindCursor();
      hide Rep; hide Put; hide Drop;
      assert nextT != l.end;
      ghost var s, ring, k := Items(), l.ring, |Items()| - 1;
      var t := back.value.t;
      assert t == s[k].t && ring[0] == l.end;
      var was, next := index, if nextT.value.t == t then l.end else nextT;
      RepTakeIdle(s, maxValue, ring, was, nextT);
      l.Erase(back, k);
      index, nextT := was - {t}, next;
    }

    /** With an idle task in the list the cursor is at a task, the idle one only when it is
        the last. */
    lemma IdleIsBehindCursor()
      requires Valid() && IdleAtBack(Items())
      ensures nextT != l.end && nextT.value == Items()[Cursor(Items(), maxValue)]
      ensures nextT.value.t == Items()[|Items()| - 1].t <==> Cursor(Items(), maxValue) == |Items()| - 1
    {
      l.Positions(Cursor(Items(), maxValue), |Items()|);
    }

    /** Takes the next task for one more request, unless every task is full. */
    method TakeOne() returns (ok: bool, t: TId)
      requires Valid()
      modifies this, l.Repr
      ensures Valid() && fresh(l.Repr - old(l.Repr))
      ensures ok <==> Cursor(old(Items()), maxValue) < |old(Items())|
      ensures ok ==> t == old(Items())[Cursor(old(Items()), maxValue)].t
      ensures Items() == if ok then TListSpec.TakeOne(old(Items()), maxValue) else old(Items())
    {
      ghost var c := Cursor(Items(), maxValue);
      l.Positions(c, |Items()|);
      ok, t := false, 0;
      if nextT == l.end {
        return;
      }
      assert nextT.value.count < maxValue;
      ok, t := true, nextT.value.t;
      AdjustIsTake(Items(), maxValue);
      hide Adjust; hide TListSpec.TakeOne; hide FirstAtMost; hide IndexFrom;
      PutOrUpdate(1, t);
    }

    /** Gives one request of task t back. */
    method ReturnOne(t: TId)
      requires Valid() && CountOf(Items(), t) > 0
      modifies this, l.Repr
      ensures Valid() && fresh(l.Repr - old(l.Repr))
      ensures Items() == TListSpec.ReturnOne(old(Items()), maxValue, t)
    {
      assert t in index;
      hide Rep; hide Update; hide New;
      PutOrUpdate(-1, t);
    }
  }
}
