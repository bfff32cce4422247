/**
 What a function's task list holds, as a plain sequence: one entry per task with the number
 of requests outstanding on it, fullest first. The node-level list (`TSortLists`) is proved
 to compute exactly these functions, and the scheduler (`Scheduler`) takes its steps with them.
 */
module TListSpec {
  import opened Sequences

  type TId = nat

  datatype Entry = Entry(count: int, t: TId)

  /** Counts within bounds and non-increasing, one entry per task. */
  ghost predicate Ok(s: seq<Entry>, max: int) {
    && (forall i :: 0 <= i < |s| ==> 0 <= s[i].count <= max)
    && (forall i, j :: 0 <= i < j < |s| ==> s[i].count >= s[j].count)
    && (forall i, j :: 0 <= i < j < |s| ==> s[i].t != s[j].t)
  }

  /** The first index, not before from, of an entry with a count of at most c. */
  function FirstAtMost(s: seq<Entry>, from: nat, c: int): (i: nat)
    requires from <= |s|
    ensures from <= i <= |s|
    ensures forall k :: from <= k < i ==> s[k].count > c
    ensures i < |s| ==> s[i].count <= c
    decreases |s| - from
  {
    if from == |s| || s[from].count <= c then from else FirstAtMost(s, from + 1, c)
  }

  /** The first entry that is not full. */
  function Cursor(s: seq<Entry>, max: int): nat {
    FirstAtMost(s, 0, max - 1)
  }

  /** The index of task t, not before from; |s| when it has no entry. */
  function IndexFrom(s: seq<Entry>, from: nat, t: TId): (i: nat)
    requires from <= |s|
    ensures from <= i <= |s|
    ensures forall k :: from <= k < i ==> s[k].t != t
    ensures i < |s| ==> s[i].t == t
    decreases |s| - from
  {
    if from == |s| || s[from].t == t then from else IndexFrom(s, from + 1, t)
  }

  function IndexOf(s: seq<Entry>, t: TId): nat {
    IndexFrom(s, 0, t)
  }

  predicate Has(s: seq<Entry>, t: TId) {
    IndexOf(s, t) < |s|
  }

  /** The refinement view, a map from tasks to outstanding requests: -1 for a task that is
      not listed. */
  function CountOf(s: seq<Entry>, t: TId): int {
    if Has(s, t) then s[IndexOf(s, t)].count else -1
  }

  /** after is before except that task t now counts c. */
  ghost predicate Changed(before: seq<Entry>, after: seq<Entry>, t: TId, c: int) {
    forall u :: CountOf(after, u) == if u == t then c else CountOf(before, u)
  }

  /** Where a new entry goes; a task that is neither idle nor full passes the cursor only
      when it is fuller than the task there. */
  function NewPosition(s: seq<Entry>, max: int, count: int): (i: nat)
    ensures i <= |s|
  {
    var c := Cursor(s, max);
    if count == 0 then |s|
    else if count == max then 0
    else if c == |s| || count > s[c].count then c
    else FirstAtMost(s, c + 1, count)
  }

  function New(s: seq<Entry>, max: int, t: TId, count: int): seq<Entry> {
    Put(s, NewPosition(s, max, count), Entry(count, t))
  }

  /** Where the entry at index i is found again once its count drops to count: the cursor's
      task goes behind every other idle task, any other task in front of its equals. */
  function DropPosition(s: seq<Entry>, max: int, i: nat, count: int): (p: nat)
    requires i < |s|
    ensures p < |s|
  {
    var rest := Drop(s, i);
    if i == Cursor(s, max) && count == 0 then |rest| else FirstAtMost(rest, 0, count)
  }

  function Update(s: seq<Entry>, max: int, t: TId, count: int): seq<Entry>
    requires Has(s, t)
  {
    var i := IndexOf(s, t);
    if count >= s[i].count then s[i := Entry(count, t)]
    else Put(Drop(s, i), DropPosition(s, max, i, count), Entry(count, t))
  }

  /** Adds increment to the count of task t, or lists t with that count. */
  function Adjust(s: seq<Entry>, max: int, t: TId, increment: int): seq<Entry> {
    if Has(s, t) then Update(s, max, t, CountOf(s, t) + increment) else New(s, max, t, increment)
  }

  function TakeOne(s: seq<Entry>, max: int): seq<Entry>
    requires Cursor(s, max) < |s|
  {
    var e := s[Cursor(s, max)];
    s[Cursor(s, max) := Entry(e.count + 1, e.t)]
  }

  function ReturnOne(s: seq<Entry>, max: int, t: TId): seq<Entry>
    requires Has(s, t)
  {
    Adjust(s, max, t, -1)
  }

  predicate IdleAtBack(s: seq<Entry>) {
    s != [] && s[|s| - 1].count == 0
  }

  function TakeIdle(s: seq<Entry>): seq<Entry>
    requires IdleAtBack(s)
  {
    s[..|s| - 1]
  }

  /* Positions. */

  lemma IndexIs(s: seq<Entry>, i: nat)
    requires i < |s|
    requires forall k :: 0 <= k < i ==> s[k].t != s[i].t
    ensures IndexOf(s, s[i].t) == i
  {
  }

  lemma InsertIndex(s: seq<Entry>, i: nat, e: Entry, t: TId)
    requires i <= |s| && !Has(s, e.t)
    ensures IndexOf(Put(s, i, e), t) ==
            if t == e.t then i else if IndexOf(s, t) < i then IndexOf(s, t) else IndexOf(s, t) + 1
  {
    var s' := Put(s, i, e);
    var j := IndexOf(s, t);
    if t == e.t {
      assert forall k :: 0 <= k < i ==> s'[k].t != t;
      IndexIs(s', i);
    } else if j < i {
      assert s'[j] == s[j] && forall k :: 0 <= k < j ==> s'[k] == s[k];
      IndexIs(s', j);
    } else {
      assert forall k :: 0 <= k <= j ==> s'[k].t != t;
      if j < |s| {
        assert s'[j + 1] == s[j];
        IndexIs(s', j + 1);
      } else {
        assert forall k :: 0 <= k < |s'| ==> s'[k].t != t;
      }
    }
  }

  lemma RemoveIndex(s: seq<Entry>, i: nat, t: TId)
    requires i < |s| && forall a, b :: 0 <= a < b < |s| ==> s[a].t != s[b].t
    ensures IndexOf(Drop(s, i), t) ==
            if t == s[i].t then |s| - 1 else if IndexOf(s, t) < i then IndexOf(s, t) else IndexOf(s, t) - 1
  {
    var s' := Drop(s, i);
    var j := IndexOf(s, t);
    if t == s[i].t || j == |s| {
      assert forall k :: 0 <= k < |s'| ==> s'[k].t != t;
    } else {
      var p := if j < i then j else j - 1;
      assert j != i && s'[p] == s[j];
      assert forall k :: 0 <= k < p ==> s'[k].t != t;
      IndexIs(s', p);
    }
  }

  lemma HasAt(s: seq<Entry>, k: nat)
    requires k < |s|
    ensures Has(s, s[k].t)
  {
  }

  lemma IndexInOk(s: seq<Entry>, max: int, k: nat)
    requires Ok(s, max) && k < |s|
    ensures IndexOf(s, s[k].t) == k
  {
    IndexIs(s, k);
  }

  /* Each operation keeps the representation and changes the count of one task. */

  lemma InsertSorted(s: seq<Entry>, max: int, i: nat, e: Entry)
    requires Ok(s, max) && i <= |s| && 0 <= e.count <= max
    requires forall k :: 0 <= k < |s| ==> s[k].t != e.t
    requires forall k :: 0 <= k < i ==> s[k].count >= e.count
    requires i < |s| ==> s[i].count <= e.count
    ensures Ok(Put(s, i, e), max)
  {
  }

  lemma InsertOk(s: seq<Entry>, max: int, i: nat, e: Entry)
    requires Ok(s, max) && i <= |s| && !Has(s, e.t) && 0 <= e.count <= max
    requires forall k :: 0 <= k < i ==> s[k].count >= e.count
    requires i < |s| ==> s[i].count <= e.count
    ensures Ok(Put(s, i, e), max)
    ensures Changed(s, Put(s, i, e), e.t, e.count)
  {
    assert Ok(Put(s, i, e), max) by {
      InsertSorted(s, max, i, e);
    }
    forall u
      ensures CountOf(Put(s, i, e), u) == if u == e.t then e.count else CountOf(s, u)
    {
      InsertCount(s, i, e, u);
    }
  }

  lemma InsertCount(s: seq<Entry>, i: nat, e: Entry, u: TId)
    requires i <= |s| && !Has(s, e.t)
    ensures CountOf(Put(s, i, e), u) == if u == e.t then e.count else CountOf(s, u)
  {
    InsertIndex(s, i, e, u);
  }

  lemma RemoveCount(s: seq<Entry>, i: nat, u: TId)
    requires i < |s| && forall a, b :: 0 <= a < b < |s| ==> s[a].t != s[b].t
    ensures CountOf(Drop(s, i), u) == if u == s[i].t then -1 else CountOf(s, u)
  {
    RemoveIndex(s, i, u);
  }

  lemma RemoveSorted(s: seq<Entry>, max: int, i: nat)
    requires Ok(s, max) && i < |s|
    ensures Ok(Drop(s, i), max)
  {
  }

  lemma RemoveOk(s: seq<Entry>, max: int, i: nat)
    requires Ok(s, max) && i < |s|
    ensures Ok(Drop(s, i), max)
    ensures Changed(s, Drop(s, i), s[i].t, -1)
  {
    assert Ok(Drop(s, i), max) by {
      RemoveSorted(s, max, i);
    }
    forall u
      ensures CountOf(Drop(s, i), u) == if u == s[i].t then -1 else CountOf(s, u)
    {
      RemoveCount(s, i, u);
    }
  }

  lemma NewOk(s: seq<Entry>, max: int, t: TId, count: int)
    requires Ok(s, max) && !Has(s, t) && 0 <= count <= max
    ensures Ok(New(s, max, t, count), max)
    ensures Changed(s, New(s, max, t, count), t, count)
  {
    InsertOk(s, max, NewPosition(s, max, count), Entry(count, t));
  }

  lemma SetCount(s: seq<Entry>, max: int, i: nat, count: int, u: TId)
    requires Ok(s, max) && i < |s|
    ensures CountOf(s[i := Entry(count, s[i].t)], u) == if u == s[i].t then count else CountOf(s, u)
  {
    var s' := s[i := Entry(count, s[i].t)];
    IndexIs(s, i);
    if Has(s, u) {
      IndexIs(s', IndexOf(s, u));
    } else {
      assert forall k :: 0 <= k < |s'| ==> s'[k].t == s[k].t;
    }
  }

  lemma RaiseOk(s: seq<Entry>, max: int, i: nat, count: int)
    requires Ok(s, max) && i == Cursor(s, max) < |s| && s[i].count <= count <= max
    ensures Ok(s[i := Entry(count, s[i].t)], max)
    ensures Changed(s, s[i := Entry(count, s[i].t)], s[i].t, count)
  {
    var s' := s[i := Entry(count, s[i].t)];
    forall u
      ensures CountOf(s', u) == if u == s[i].t then count else CountOf(s, u)
    {
      SetCount(s, max, i, count, u);
    }
  }

  lemma DropOk(s: seq<Entry>, max: int, t: TId, count: int)
    requires Ok(s, max) && Has(s, t) && 0 <= count < s[IndexOf(s, t)].count
    ensures Ok(Update(s, max, t, count), max)
    ensures Changed(s, Update(s, max, t, count), t, count)
  {
    var i := IndexOf(s, t);
    RemoveOk(s, max, i);
    var rest := Drop(s, i);
    assert CountOf(rest, t) == -1;
    InsertOk(rest, max, DropPosition(s, max, i, count), Entry(count, t));
  }

  lemma TakeIdleOk(s: seq<Entry>, max: int)
    requires Ok(s, max) && IdleAtBack(s)
    ensures Ok(TakeIdle(s), max)
    ensures CountOf(s, s[|s| - 1].t) == 0
    ensures Changed(s, TakeIdle(s), s[|s| - 1].t, -1)
  {
    RemoveOk(s, max, |s| - 1);
    assert Drop(s, |s| - 1) == TakeIdle(s);
    IndexInOk(s, max, |s| - 1);
  }

  /* What the operations mean for the counts. */

  lemma EntryCount(s: seq<Entry>, max: int, k: nat)
    requires Ok(s, max) && k < |s|
    ensures CountOf(s, s[k].t) == s[k].count
  {
    IndexInOk(s, max, k);
  }

  lemma HasIsCounted(s: seq<Entry>, max: int, t: TId)
    requires Ok(s, max)
    ensures Has(s, t) <==> CountOf(s, t) >= 0
    ensures !Has(s, t) <==> CountOf(s, t) == -1
    ensures CountOf(s, t) <= max || max < 0
  {
  }

  /** There is a task to take exactly when some listed task is not full. */
  lemma NoneToTake(s: seq<Entry>, max: int)
    requires Ok(s, max)
    ensures Cursor(s, max) == |s| <==> forall t :: Has(s, t) ==> CountOf(s, t) == max
  {
    var c := Cursor(s, max);
    if c < |s| {
      EntryCount(s, max, c);
      assert CountOf(s, s[c].t) < max;
    }
  }

  /** takeOne adds one request to a task that has the most among the tasks that are not full. */
  lemma TakeOneMeaning(s: seq<Entry>, max: int)
    requires Ok(s, max) && Cursor(s, max) < |s|
    ensures var t := s[Cursor(s, max)].t;
            && 0 <= CountOf(s, t) < max
            && (forall u :: CountOf(s, u) < max ==> CountOf(s, u) <= CountOf(s, t))
            && Ok(TakeOne(s, max), max)
            && Changed(s, TakeOne(s, max), t, CountOf(s, t) + 1)
  {
    var c := Cursor(s, max);
    EntryCount(s, max, c);
    RaiseOk(s, max, c, s[c].count + 1);
  }

  /** Only the last entry is looked at, and it is idle exactly when some task is. */
  lemma TakeIdleMeaning(s: seq<Entry>, max: int)
    requires Ok(s, max)
    ensures IdleAtBack(s) <==> exists t :: CountOf(s, t) == 0
  {
    if IdleAtBack(s) {
      TakeIdleOk(s, max);
    }
  }

  /** returnOne takes one request from exactly the named task. */
  lemma ReturnOneMeaning(s: seq<Entry>, max: int, t: TId)
    requires Ok(s, max) && CountOf(s, t) > 0
    ensures Ok(ReturnOne(s, max, t), max)
    ensures Changed(s, ReturnOne(s, max, t), t, CountOf(s, t) - 1)
  {
    var count := CountOf(s, t) - 1;
    DropOk(s, max, t, count);
  }

  /** A task that is not at the cursor and gives requests back is at least as full as the
      cursor's task afterwards only if it was full; giving back one, exactly if it was. */
  lemma PassesCursorIffWasFull(s: seq<Entry>, max: int, i: nat, count: int)
    requires Ok(s, max) && i < |s| && i != Cursor(s, max) < |s| && count < s[i].count
    ensures count >= s[Cursor(s, max)].count ==> s[i].count == max
    ensures s[i].count == max && count == max - 1 ==> count >= s[Cursor(s, max)].count
  {
    if i > Cursor(s, max) {
      assert s[Cursor(s, max)].count >= s[i].count;
    }
  }

  /* Where the operations put a task; all other tasks stay in their order. */

  /** The first task that is not full is the one at k. */
  ghost predicate FirstNotFull(s: seq<Entry>, max: int, k: nat) {
    k < |s| && s[k].count < max && forall j :: 0 <= j < k ==> s[j].count >= max
  }

  /** The entries other than task t's. */
  function Others(s: seq<Entry>, t: TId): seq<Entry> {
    if Has(s, t) then Drop(s, IndexOf(s, t)) else s
  }

  /** A new idle task goes to the back. Any other goes in front of the tasks with as many requests
      or fewer, except that it stays behind the first task that is not full if that has as many. */
  lemma NewPlace(s: seq<Entry>, max: int, t: TId, count: int) returns (p: nat)
    requires Ok(s, max) && !Has(s, t) && 0 <= count <= max
    ensures p <= |s| && New(s, max, t, count) == Put(s, p, Entry(count, t))
    ensures count == 0 ==> p == |s|
    ensures count > 0 ==> forall k: nat :: k < |s| ==>
                (k < p <==> s[k].count > count || (s[k].count == count && FirstNotFull(s, max, k)))
  {
    p := NewPosition(s, max, count);
  }

  /** A task that gives requests back goes in front of the tasks with as many or fewer; if it was
      the first that is not full and becomes idle, it goes to the back. */
  lemma DropPlace(s: seq<Entry>, max: int, t: TId, count: int) returns (p: nat)
    requires Ok(s, max) && Has(s, t) && 0 <= count < s[IndexOf(s, t)].count
    ensures p <= |Others(s, t)| && Update(s, max, t, count) == Put(Others(s, t), p, Entry(count, t))
    ensures count == 0 && FirstNotFull(s, max, IndexOf(s, t)) ==> p == |Others(s, t)|
    ensures count > 0 || !FirstNotFull(s, max, IndexOf(s, t)) ==>
              forall k: nat :: k < |Others(s, t)| ==> (k < p <==> Others(s, t)[k].count > count)
  {
    var i := IndexOf(s, t);
    RemoveSorted(s, max, i);
    p := DropPosition(s, max, i, count);
  }

  /** The first task that is not full is taken, and stays where it is. */
  lemma TakeOnePlace(s: seq<Entry>, max: int) returns (k: nat)
    requires Ok(s, max) && Cursor(s, max) < |s|
    ensures FirstNotFull(s, max, k) && TakeOne(s, max) == s[k := Entry(s[k].count + 1, s[k].t)]
  {
    k := Cursor(s, max);
  }
}
