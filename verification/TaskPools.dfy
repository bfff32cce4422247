/**
 Dispatching as one locked section: which task a request gets, from the function's own list,
 from the function least recently dispatched to that has an idle one, or new.
 */
module TaskPools {
  import opened LruSpec
  import opened Pools
  import opened Sequences
  import opened Tasks
  import opened TListSpec
  import opened Wrappers

  /** Function f can give a task away. */
  predicate HasIdle(lists: map<FId, seq<Entry>>, f: FId) {
    f in lists && IdleAtBack(lists[f])
  }

  /** The index of the first function in fs, not before from, that can give a task away and is
      not the one to skip; |fs| when there is none. */
  function FirstIdle(lists: map<FId, seq<Entry>>, fs: seq<FId>, skip: Option<FId>, from: nat): (i: nat)
    requires from <= |fs|
    ensures from <= i <= |fs|
    ensures i < |fs| ==> HasIdle(lists, fs[i]) && skip != Some(fs[i])
    ensures forall k :: from <= k < i ==> !HasIdle(lists, fs[k]) || skip == Some(fs[k])
    decreases |fs| - from
  {
    if from == |fs| || (HasIdle(lists, fs[from]) && skip != Some(fs[from])) then from
    else FirstIdle(lists, fs, skip, from + 1)
  }

  function FList(fs: map<RId, seq<FId>>, r: RId): seq<FId> {
    if r in fs then fs[r] else []
  }

  /** The index of the first R in rs, not before from, other than self, one of whose functions
      can give a task away; |rs| when there is none. */
  function FirstR(lists: map<FId, seq<Entry>>, fs: map<RId, seq<FId>>, rs: seq<RId>, self: RId, from: nat): (i: nat)
    requires from <= |rs|
    ensures from <= i <= |rs|
    ensures i < |rs| ==> rs[i] != self && FirstIdle(lists, FList(fs, rs[i]), None, 0) < |FList(fs, rs[i])|
    ensures forall k :: from <= k < i ==>
              rs[k] == self || FirstIdle(lists, FList(fs, rs[k]), None, 0) == |FList(fs, rs[k])|
    decreases |rs| - from
  {
    if from == |rs| || (rs[from] != self && FirstIdle(lists, FList(fs, rs[from]), None, 0) < |FList(fs, rs[from])|) then
      from
    else FirstR(lists, fs, rs, self, from + 1)
  }

  /** The function a task is taken from for function f of R r. */
  function Victim(lists: map<FId, seq<Entry>>, fs: map<RId, seq<FId>>, rs: seq<RId>, r: RId, f: FId): (v: Option<FId>)
    ensures v.Some? ==> HasIdle(lists, v.value)
  {
    var i := FirstIdle(lists, FList(fs, r), Some(f), 0);
    if i < |FList(fs, r)| then Some(FList(fs, r)[i])
    else
      var j := FirstR(lists, fs, rs, r, 0);
      if j < |rs| then Some(FList(fs, rs[j])[FirstIdle(lists, FList(fs, rs[j]), None, 0)]) else None
  }

  /** No listed function other than f has an idle task. */
  ghost predicate NoneElsewhere(lists: map<FId, seq<Entry>>, fs: map<RId, seq<FId>>, rs: seq<RId>, r: RId, f: FId) {
    && (forall g <- FList(fs, r) :: g != f ==> !HasIdle(lists, g))
    && (forall x <- rs :: x != r ==> forall g <- FList(fs, x) :: !HasIdle(lists, g))
  }

  /** No task is taken exactly when no listed function other than f has an idle one. */
  lemma NoVictimMeans(lists: map<FId, seq<Entry>>, fs: map<RId, seq<FId>>, rs: seq<RId>, r: RId, f: FId)
    ensures Victim(lists, fs, rs, r, f) == None <==> NoneElsewhere(lists, fs, rs, r, f)
  {
    var own := FList(fs, r);
    var i := FirstIdle(lists, own, Some(f), 0);
    var j := FirstR(lists, fs, rs, r, 0);
    if i < |own| {
      assert own[i] in own && own[i] != f && HasIdle(lists, own[i]);
    } else if j < |rs| {
      var other := FList(fs, rs[j]);
      assert other[FirstIdle(lists, other, None, 0)] in other;
    } else {
      assert forall g <- own :: g != f ==> !HasIdle(lists, g);
      forall r' | r' in rs && r' != r
        ensures forall g <- FList(fs, r') :: !HasIdle(lists, g)
      {
        assert FirstIdle(lists, FList(fs, r'), None, 0) == |FList(fs, r')|;
      }
    }
  }

  /** In a list that keeps the last uses of a history, an element that comes before another one
      was used before it. */
  lemma UsedBefore<U>(h: seq<U>, s: seq<U>, i: nat, u: U)
    requires s == KeepLast(h) && i < |s| && u in s && u != s[i] && forall k :: 0 <= k < i ==> s[k] != u
    ensures LastUse(h, s[i]) < LastUse(h, u)
  {
    OldestFirst(h);
    var j :| 0 <= j < |s| && s[j] == u;
  }

  /** A task comes from the function of the same R that was dispatched to least recently among
      those that have an idle one; only if there is none, from another R, the one dispatched to
      least recently that has such a function, and there again from the function dispatched to
      least recently. */
  lemma VictimIsOldest(lists: map<FId, seq<Entry>>, fs: map<RId, seq<FId>>, rs: seq<RId>, r: RId, f: FId,
                       fHistory: map<RId, seq<FId>>, rHistory: seq<RId>)
    requires rs == KeepLast(rHistory) && LastUses(fs, fHistory)
    requires Victim(lists, fs, rs, r, f).Some?
    ensures var v := Victim(lists, fs, rs, r, f).value;
            if exists g :: g in FList(fs, r) && g != f && HasIdle(lists, g) then
              r in fs && v in fs[r] && v != f
              && forall g <- fs[r] :: g != f && g != v && HasIdle(lists, g) ==>
                 LastUse(fHistory[r], v) < LastUse(fHistory[r], g)
            else
              exists r' ::
                (r' in rs && r' != r && r' in fs && v in fs[r']
                 && (forall g <- fs[r'] :: g != v && HasIdle(lists, g) ==>
                     LastUse(fHistory[r'], v) < LastUse(fHistory[r'], g))
                 && (forall x <- rs :: x != r && x != r' && (exists g :: g in FList(fs, x) && HasIdle(lists, g)) ==>
                                         LastUse(rHistory, r') < LastUse(rHistory, x)))
  {
    hide KeepLast; hide LastUse; hide HasIdle;
    var own := FList(fs, r);
    var i := FirstIdle(lists, own, Some(f), 0);
    var v := Victim(lists, fs, rs, r, f).value;
    if i < |own| {
      assert own[i] in own;
      forall g | g in own && g != f && g != v && HasIdle(lists, g)
        ensures LastUse(fHistory[r], v) < LastUse(fHistory[r], g)
      {
        UsedBefore(fHistory[r], own, i, g);
      }
    } else {
      OtherIsOldest(lists, fs, rs, r, fHistory, rHistory);
    }
  }

  lemma OtherIsOldest(lists: map<FId, seq<Entry>>, fs: map<RId, seq<FId>>, rs: seq<RId>, r: RId,
                      fHistory: map<RId, seq<FId>>, rHistory: seq<RId>)
    requires rs == KeepLast(rHistory) && LastUses(fs, fHistory)
    requires FirstR(lists, fs, rs, r, 0) < |rs|
    ensures var r' := rs[FirstR(lists, fs, rs, r, 0)];
            var other := FList(fs, r');
            var v := other[FirstIdle(lists, other, None, 0)];
            && r' in rs && r' != r && r' in fs && v in fs[r']
            && (forall g <- fs[r'] :: g != v && HasIdle(lists, g) ==>
                LastUse(fHistory[r'], v) < LastUse(fHistory[r'], g))
            && (forall x <- rs :: x != r && x != r' && (exists g :: g in FList(fs, x) && HasIdle(lists, g)) ==>
                LastUse(rHistory, r') < LastUse(rHistory, x))
  {
    hide KeepLast; hide LastUse; hide HasIdle;
    var j := FirstR(lists, fs, rs, r, 0);
    var r' := rs[j];
    var other := FList(fs, r');
    var v := other[FirstIdle(lists, other, None, 0)];
    assert r' in rs && v in other;
    forall g | g in other && g != v && HasIdle(lists, g)
      ensures LastUse(fHistory[r'], v) < LastUse(fHistory[r'], g)
    {
      UsedBefore(fHistory[r'], other, FirstIdle(lists, other, None, 0), g);
    }
    forall x | x in rs && x != r && x != r' && exists g :: g in FList(fs, x) && HasIdle(lists, g)
      ensures LastUse(rHistory, r') < LastUse(rHistory, x)
    {
      assert FirstIdle(lists, FList(fs, x), None, 0) < |FList(fs, x)|;
      UsedBefore(rHistory, rs, j, x);
    }
  }

  /** x at the end of the sequence that m has for k. */
  function Appended<K, X>(m: map<K, seq<X>>, k: K, x: X): map<K, seq<X>> {
    m[k := (if k in m then m[k] else []) + [x]]
  }

  /** Each R's F list keeps the last uses of its history. */
  ghost predicate LastUses(fs: map<RId, seq<FId>>, fHistory: map<RId, seq<FId>>) {
    fs.Keys == fHistory.Keys && forall r <- fs :: fs[r] == KeepLast(fHistory[r])
  }

  datatype Source = Own | Stolen(from: FId) | Created

  datatype Got = Got(t: TId, source: Source, lists: map<FId, seq<Entry>>)

  /** The task a request for f gets, with tid as the id of a new one, and what the lists are
      then. */
  function GetTask(cfg: Config, lists: map<FId, seq<Entry>>, fs: map<RId, seq<FId>>, rs: seq<RId>, f: FId,
                   tid: TId): Got
    requires f in cfg.funs && f in lists
  {
    var l, max := lists[f], cfg.funs[f].concurrency;
    if Cursor(l, max) < |l| then Got(l[Cursor(l, max)].t, Own, lists[f := TakeOne(l, max)])
    else
      match Victim(lists, fs, rs, cfg.funs[f].r, f)
      case Some(v) =>
        var t := lists[v][|lists[v]| - 1].t;
        var rest := lists[v := TakeIdle(lists[v])];
        Got(t, Stolen(v), rest[f := Adjust(rest[f], max, t, 1)])
      case None => Got(tid, Created, lists[f := Adjust(l, max, tid, 1)])
  }

  /** No task is in two lists. */
  ghost predicate OneOwner(lists: map<FId, seq<Entry>>) {
    forall f, g, t :: f in lists && g in lists && Has(lists[f], t) && Has(lists[g], t) ==> f == g
  }

  ghost predicate InOrder(cfg: Config, lists: map<FId, seq<Entry>>, ts: set<TId>) {
    && lists.Keys == cfg.funs.Keys && OneOwner(lists)
    && forall f <- lists :: Ok(lists[f], cfg.funs[f].concurrency) && forall t :: Has(lists[f], t) ==> t in ts
  }

  /** Taking one of f's own tasks: a fullest one that is not full. */
  lemma OwnTaken(cfg: Config, lists: map<FId, seq<Entry>>, ts: set<TId>, f: FId)
    requires InOrder(cfg, lists, ts) && f in cfg.funs && Cursor(lists[f], cfg.funs[f].concurrency) < |lists[f]|
    ensures var max := cfg.funs[f].concurrency;
            var t := lists[f][Cursor(lists[f], max)].t;
            var lists' := lists[f := TakeOne(lists[f], max)];
            && InOrder(cfg, lists', ts) && t in ts && Has(lists[f], t)
            && Changed(lists[f], lists'[f], t, CountOf(lists[f], t) + 1)
  {
    var l, max := lists[f], cfg.funs[f].concurrency;
    TakeOneMeaning(l, max);
    HasAt(l, Cursor(l, max));
    SameTasks(cfg, lists, ts, f, TakeOne(l, max), l[Cursor(l, max)].t, CountOf(l, l[Cursor(l, max)].t) + 1);
  }

  /** A change of the count of one listed task keeps the lists in order. */
  lemma SameTasks(cfg: Config, lists: map<FId, seq<Entry>>, ts: set<TId>, f: FId, l: seq<Entry>, t: TId, c: int)
    requires InOrder(cfg, lists, ts) && f in lists && Ok(l, cfg.funs[f].concurrency) && Changed(lists[f], l, t, c)
             && c >= 0
    requires t in ts && forall g <- lists :: g != f ==> !Has(lists[g], t)
    ensures InOrder(cfg, lists[f := l], ts)
  {
    var max := cfg.funs[f].concurrency;
    hide Has; hide CountOf; hide Ok;
    forall u
      ensures Has(l, u) <==> u == t || Has(lists[f], u)
    {
      HasIsCounted(l, max, u);
      HasIsCounted(lists[f], max, u);
    }
  }

  /** Taking an idle task away leaves the lists in order and the task in none. */
  lemma IdleTaken(cfg: Config, lists: map<FId, seq<Entry>>, ts: set<TId>, v: FId)
    requires InOrder(cfg, lists, ts) && HasIdle(lists, v)
    ensures var t := lists[v][|lists[v]| - 1].t;
            var lists' := lists[v := TakeIdle(lists[v])];
            && InOrder(cfg, lists', ts) && t in ts && CountOf(lists[v], t) == 0
            && forall g <- lists' :: !Has(lists'[g], t)
  {
    var max := cfg.funs[v].concurrency;
    var t := lists[v][|lists[v]| - 1].t;
    TakeIdleOk(lists[v], max);
    HasAt(lists[v], |lists[v]| - 1);
    var l := TakeIdle(lists[v]);
    hide Has; hide CountOf; hide Ok; hide IdleAtBack; hide TakeIdle;
    forall u
      ensures Has(l, u) <==> u != t && Has(lists[v], u)
    {
      HasIsCounted(l, max, u);
      HasIsCounted(lists[v], max, u);
    }
  }

  lemma Added(cfg: Config, lists: map<FId, seq<Entry>>, ts: set<TId>, f: FId, t: TId)
    requires InOrder(cfg, lists, ts) && f in lists && cfg.Ok() && forall g <- lists :: !Has(lists[g], t)
    ensures InOrder(cfg, lists[f := Adjust(lists[f], cfg.funs[f].concurrency, t, 1)], ts + {t})
    ensures CountOf(Adjust(lists[f], cfg.funs[f].concurrency, t, 1), t) == 1
  {
    var max := cfg.funs[f].concurrency;
    NewOk(lists[f], max, t, 1);
    assert InOrder(cfg, lists, ts + {t});
    SameTasks(cfg, lists, ts + {t}, f, New(lists[f], max, t, 1), t, 1);
  }

  /** Every F list is a list of functions of its R. */
  ghost predicate Sorted(cfg: Config, fs: map<RId, seq<FId>>) {
    forall r <- fs, f <- fs[r] :: f in cfg.funs && cfg.funs[f].r == r
  }

  lemma VictimIsOther(cfg: Config, lists: map<FId, seq<Entry>>, fs: map<RId, seq<FId>>, rs: seq<RId>, f: FId)
    requires Sorted(cfg, fs) && f in cfg.funs
    ensures var v := Victim(lists, fs, rs, cfg.funs[f].r, f); v.Some? ==> v.value != f && HasIdle(lists, v.value)
  {
    hide HasIdle;
    var r := cfg.funs[f].r;
    var own := FList(fs, r);
    var i := FirstIdle(lists, own, Some(f), 0);
    var j := FirstR(lists, fs, rs, r, 0);
    if i == |own| && j < |rs| {
      var other := FList(fs, rs[j]);
      assert other[FirstIdle(lists, other, None, 0)] in other;
    }
  }

  /** Every dispatch keeps each task in one list and every list in order, and counts the
      request for a task of its function: one of its own, where it is now one of the fullest,
      or one that was idle in another list and has left that, or a new one. */
  lemma GetTaskOk(cfg: Config, lists: map<FId, seq<Entry>>, fs: map<RId, seq<FId>>, rs: seq<RId>, f: FId, tid: TId,
                  ts: set<TId>)
    requires cfg.Ok() && InOrder(cfg, lists, ts) && Sorted(cfg, fs) && f in cfg.funs && tid !in ts
    ensures var got := GetTask(cfg, lists, fs, rs, f, tid);
            && InOrder(cfg, got.lists, ts + {got.t}) && Has(got.lists[f], got.t)
            && match got.source
               case Own => Has(lists[f], got.t) && CountOf(got.lists[f], got.t) == CountOf(lists[f], got.t) + 1
               case Stolen(v) => v in lists && v != f && CountOf(lists[v], got.t) == 0
                 && CountOf(got.lists[f], got.t) == 1
               case Created => got.t == tid && CountOf(got.lists[f], got.t) == 1
  {
    hide Has; hide CountOf; hide Ok; hide Adjust; hide TakeOne; hide TakeIdle; hide Cursor; hide IdleAtBack;
    var l, max := lists[f], cfg.funs[f].concurrency;
    var got := GetTask(cfg, lists, fs, rs, f, tid);
    if Cursor(l, max) < |l| {
      OwnTaken(cfg, lists, ts, f);
      HasIsCounted(l, max, got.t);
      assert ts + {got.t} == ts;
    } else {
      VictimIsOther(cfg, lists, fs, rs, f);
      var v := Victim(lists, fs, rs, cfg.funs[f].r, f);
      if v.Some? {
        IdleTaken(cfg, lists, ts, v.value);
        Added(cfg, lists[v.value := TakeIdle(lists[v.value])], ts, f, got.t);
      } else {
        assert forall g <- lists :: !Has(lists[g], tid);
        Added(cfg, lists, ts, f, tid);
      }
    }
    HasIsCounted(got.lists[f], max, got.t);
  }

  /** An own task that is taken has the most requests among those of f that are not full; and no
      other task's count in any list changes. */
  lemma GetTaskTakesFullest(cfg: Config, lists: map<FId, seq<Entry>>, fs: map<RId, seq<FId>>, rs: seq<RId>, f: FId,
                            tid: TId, ts: set<TId>)
    requires cfg.Ok() && InOrder(cfg, lists, ts) && Sorted(cfg, fs) && f in cfg.funs && tid !in ts
    ensures var got, max := GetTask(cfg, lists, fs, rs, f, tid), cfg.funs[f].concurrency;
            && (got.source == Own ==>
                  && CountOf(lists[f], got.t) < max
                  && forall u :: CountOf(lists[f], u) < max ==> CountOf(lists[f], u) <= CountOf(lists[f], got.t))
            && got.lists.Keys == lists.Keys
            && (forall g <- lists, u :: u != got.t ==> CountOf(got.lists[g], u) == CountOf(lists[g], u))
  {
    var l, max := lists[f], cfg.funs[f].concurrency;
    hide Has; hide CountOf; hide Ok; hide TakeOne; hide Cursor; hide TakeIdle; hide Adjust; hide IdleAtBack;
    hide Changed;
    hide InOrder; hide Victim;
    if Cursor(l, max) < |l| {
      OwnFullest(cfg, lists, ts, f);
    } else {
      ElsewhereOthers(cfg, lists, fs, rs, f, tid, ts);
    }
  }

  /** An own task is taken exactly if some own task is not full. */
  lemma OwnIffRoom(cfg: Config, lists: map<FId, seq<Entry>>, fs: map<RId, seq<FId>>, rs: seq<RId>, f: FId, tid: TId,
                   ts: set<TId>)
    requires InOrder(cfg, lists, ts) && f in cfg.funs
    ensures GetTask(cfg, lists, fs, rs, f, tid).source == Own <==>
            exists u :: Has(lists[f], u) && CountOf(lists[f], u) != cfg.funs[f].concurrency
  {
    var l, max := lists[f], cfg.funs[f].concurrency;
    assert Cursor(l, max) <= |l|;
    NoneToTake(l, max);
    hide Has; hide CountOf; hide Ok; hide TakeOne; hide Cursor; hide TakeIdle; hide Adjust; hide Victim; hide HasIdle;
  }

  lemma OwnFullest(cfg: Config, lists: map<FId, seq<Entry>>, ts: set<TId>, f: FId)
    requires InOrder(cfg, lists, ts) && f in cfg.funs && f in lists
    requires Cursor(lists[f], cfg.funs[f].concurrency) < |lists[f]|
    ensures var l, max := lists[f], cfg.funs[f].concurrency;
            var t := l[Cursor(l, max)].t;
            && CountOf(l, t) < max && (forall u :: CountOf(l, u) < max ==> CountOf(l, u) <= CountOf(l, t))
            && (forall u :: u != t ==> CountOf(TakeOne(l, max), u) == CountOf(l, u))
  {
    TakeOneMeaning(lists[f], cfg.funs[f].concurrency);
  }

  /** A task from elsewhere, or a new one, changes no other task's count. */
  lemma ElsewhereOthers(cfg: Config, lists: map<FId, seq<Entry>>, fs: map<RId, seq<FId>>, rs: seq<RId>, f: FId,
                        tid: TId, ts: set<TId>)
    requires cfg.Ok() && InOrder(cfg, lists, ts) && Sorted(cfg, fs) && f in cfg.funs && f in lists && tid !in ts
    requires Cursor(lists[f], cfg.funs[f].concurrency) >= |lists[f]|
    ensures var got := GetTask(cfg, lists, fs, rs, f, tid);
            && got.lists.Keys == lists.Keys
            && (forall g <- lists, u :: u != got.t ==> CountOf(got.lists[g], u) == CountOf(lists[g], u))
  {
    hide CountOf; hide Ok; hide TakeIdle; hide Adjust; hide Cursor; hide IdleAtBack; hide Victim;
    VictimIsOther(cfg, lists, fs, rs, f);
    var v := Victim(lists, fs, rs, cfg.funs[f].r, f);
    if v.Some? {
      StolenOthers(cfg, lists, ts, v.value, f);
    } else {
      assert forall g <- lists :: !Has(lists[g], tid);
      AdjustNew(cfg, lists, f, tid, ts);
    }
  }

  lemma AdjustNew(cfg: Config, lists: map<FId, seq<Entry>>, f: FId, t: TId, ts: set<TId>)
    requires cfg.Ok() && InOrder(cfg, lists, ts) && f in lists && forall g <- lists :: !Has(lists[g], t)
    ensures forall u :: u != t ==> CountOf(Adjust(lists[f], cfg.funs[f].concurrency, t, 1), u) == CountOf(lists[f], u)
  {
    NewOk(lists[f], cfg.funs[f].concurrency, t, 1);
  }

  lemma StolenOthers(cfg: Config, lists: map<FId, seq<Entry>>, ts: set<TId>, v: FId, f: FId)
    requires cfg.Ok() && InOrder(cfg, lists, ts) && HasIdle(lists, v) && v != f && f in lists
    ensures var t := lists[v][|lists[v]| - 1].t;
            && (forall u :: u != t ==> CountOf(TakeIdle(lists[v]), u) == CountOf(lists[v], u))
            && (forall u :: u != t ==>
                  CountOf(Adjust(lists[f], cfg.funs[f].concurrency, t, 1), u) == CountOf(lists[f], u))
  {
    TakeIdleOk(lists[v], cfg.funs[v].concurrency);
    IdleTaken(cfg, lists, ts, v);
    var t, lists' := lists[v][|lists[v]| - 1].t, lists[v := TakeIdle(lists[v])];
    assert lists'[f] == lists[f];
    AdjustNew(cfg, lists', f, t, ts);
  }

  /** A new task is created exactly when all tasks of f are full and no other listed function
      has an idle one. */
  lemma CreatedIffNoneToHave(cfg: Config, lists: map<FId, seq<Entry>>, fs: map<RId, seq<FId>>, rs: seq<RId>, f: FId,
                             tid: TId, ts: set<TId>)
    requires InOrder(cfg, lists, ts) && f in cfg.funs
    ensures GetTask(cfg, lists, fs, rs, f, tid).source == Created <==>
            (forall t :: Has(lists[f], t) ==> CountOf(lists[f], t) == cfg.funs[f].concurrency)
            && NoneElsewhere(lists, fs, rs, cfg.funs[f].r, f)
  {
    var l, max := lists[f], cfg.funs[f].concurrency;
    NoneToTake(l, max);
    NoVictimMeans(lists, fs, rs, cfg.funs[f].r, f);
    assert Cursor(l, max) <= |l|;
    hide Has; hide CountOf; hide Adjust; hide TakeOne; hide TakeIdle; hide Cursor; hide Victim; hide NoneElsewhere;
    hide InOrder; hide HasIdle;
    assert GetTask(cfg, lists, fs, rs, f, tid).source == Created <==>
           Cursor(l, max) == |l| && Victim(lists, fs, rs, cfg.funs[f].r, f) == None;
  }

  class TaskPool {
    const cfg: Config
    var rs: seq<RId>                      // the R list, least recently dispatched to first
    var fs: map<RId, seq<FId>>            // each R's F list, likewise
    var lists: map<FId, seq<Entry>>       // each F's task list
    var queues: map<TId, seq<ReqId>>      // the queue of each task there is
    ghost var rHistory: seq<RId>
    ghost var fHistory: map<RId, seq<FId>>

    /** The lists of Rs and of Fs are in the order of the last dispatches. */
    ghost predicate Recent()
      reads this`rs, this`fs, this`rHistory, this`fHistory
    {
      Sorted(cfg, fs) && rs == KeepLast(rHistory) && LastUses(fs, fHistory)
    }

    ghost predicate Valid()
      reads this
    {
      cfg.Ok() && InOrder(cfg, lists, queues.Keys) && Recent()
    }

    constructor (cfg: Config)
      requires cfg.Ok()
      ensures Valid() && this.cfg == cfg && rHistory == [] && fHistory == map[] && queues == map[]
      ensures forall f <- cfg.funs :: lists[f] == []
    {
      this.cfg := cfg;
      rs, fs, lists, queues, rHistory, fHistory := [], map[], map f | f in cfg.funs :: [], map[], [], map[];
    }

    /** The idle task of the first function in items, not the one to skip, that has one. */
    method TakeFirstIdle(items: seq<FId>, skip: Option<FId>) returns (t: Option<TId>)
      requires lists.Keys == cfg.funs.Keys && forall f <- items :: f in cfg.funs
      modifies this`lists
      ensures var i := FirstIdle(old(lists), items, skip, 0);
              if i == |items| then t == None && lists == old(lists)
              else lists == old(lists)[items[i] := TakeIdle(old(lists)[items[i]])]
                   && t == Some(old(lists)[items[i]][|old(lists)[items[i]]| - 1].t)
    {
      var i := 0;
      while i < |items|
        invariant i <= |items| && lists == old(lists)
        invariant FirstIdle(lists, items, skip, 0) == FirstIdle(lists, items, skip, i)
      {
        var f := items[i];
        if skip != Some(f) && IdleAtBack(lists[f]) {
          t := Some(lists[f][|lists[f]| - 1].t);
          lists := lists[f := TakeIdle(lists[f])];
          return;
        }
        i := i + 1;
      }
      t := None;
    }

    method GetTFromOtherFInSameR(f: FId) returns (t: Option<TId>)
      requires lists.Keys == cfg.funs.Keys && Sorted(cfg, fs) && f in cfg.funs
      modifies this`lists
      ensures var items := FList(fs, cfg.funs[f].r);
              var i := FirstIdle(old(lists), items, Some(f), 0);
              if i == |items| then t == None && lists == old(lists)
              else lists == old(lists)[items[i] := TakeIdle(old(lists)[items[i]])]
                   && t == Some(old(lists)[items[i]][|old(lists)[items[i]]| - 1].t)
    {
      var items := if cfg.funs[f].r in fs then fs[cfg.funs[f].r] else [];
      t := TakeFirstIdle(items, Some(f));
    }

    method GetTFromOtherR(r: RId) returns (t: Option<TId>)
      requires lists.Keys == cfg.funs.Keys && Sorted(cfg, fs)
      modifies this`lists
      ensures var j := FirstR(old(lists), fs, rs, r, 0);
              if j == |rs| then t == None && lists == old(lists)
              else
                var items := FList(fs, rs[j]);
                var v := items[FirstIdle(old(lists), items, None, 0)];
                lists == old(lists)[v := TakeIdle(old(lists)[v])] && t == Some(old(lists)[v][|old(lists)[v]| - 1].t)
    {
      var j := 0;
      while j < |rs|
        invariant j <= |rs| && lists == old(lists)
        invariant FirstR(lists, fs, rs, r, 0) == FirstR(lists, fs, rs, r, j)
      {
        if rs[j] != r {
          var items := if rs[j] in fs then fs[rs[j]] else [];
          t := TakeFirstIdle(items, None);
          if t.Some? {
            return;
          }
        }
        j := j + 1;
      }
      t := None;
    }

    /** The part of Dispatch in the dispatch lock that finds a task. */
    method FindT(f: FId, tid: TId) returns (t: TId)
      requires lists.Keys == cfg.funs.Keys && Sorted(cfg, fs) && f in cfg.funs
      modifies this`lists
      ensures var got := GetTask(cfg, old(lists), fs, rs, f, tid); t == got.t && lists == got.lists
    {
      hide TakeOne; hide TakeIdle; hide Adjust; hide FList;
      var l, max := lists[f], cfg.funs[f].concurrency;
      if Cursor(l, max) < |l| {
        t := l[Cursor(l, max)].t;
        lists := lists[f := TakeOne(l, max)];
      } else {
        var other := GetTFromOtherFInSameR(f);
        if other == None {
          other := GetTFromOtherR(cfg.funs[f].r);
        }
        t := if other == None then tid else other.value;
        lists := lists[f := Adjust(lists[f], max, t, 1)];
      }
    }

    /** Dispatches request q for function f; tid is the id of a new task, if one is created. */
    method Dispatch(q: ReqId, f: FId, tid: TId) returns (t: TId)
      requires Valid() && f in cfg.funs && tid !in queues
      modifies this
      ensures Valid()
      ensures var r := cfg.funs[f].r;
              && rHistory == old(rHistory) + [r]
              && fHistory == Appended(old(fHistory), r, f)
      ensures var got := GetTask(cfg, old(lists), fs, rs, f, tid); t == got.t && lists == got.lists
      ensures queues == Appended(old(queues), t, q)
    {
      hide InOrder; hide GetTask; hide Recent;
      AccessLists(f);
      assert Sorted(cfg, fs) && lists.Keys == cfg.funs.Keys by { Orders(); }
      GetTaskOk(cfg, lists, fs, rs, f, tid, queues.Keys);
      ghost var ts := queues.Keys;
      t := FindT(f, tid);
      queues := Appended(queues, t, q);
      assert queues.Keys == ts + {t};
    }

    lemma Orders()
      requires Valid()
      ensures Sorted(cfg, fs) && lists.Keys == cfg.funs.Keys
    {
    }

    /** Moves f and its R to the back of their lists. */
    method AccessLists(f: FId)
      requires Recent() && f in cfg.funs
      modifies this`rs, this`fs, this`rHistory, this`fHistory
      ensures Recent()
      ensures var r := cfg.funs[f].r;
              && rHistory == old(rHistory) + [r]
              && fHistory == Appended(old(fHistory), r, f)
    {
      var r := cfg.funs[f].r;
      var items := if r in fs then fs[r] else [];
      AccessKeepsLast(rHistory, r);
      AccessedSorted(cfg, fs, f);
      AccessedLast(fs, fHistory, r, f);
      hide KeepLast; hide Access; hide Sorted; hide LastUses; hide Appended;
      rs, rHistory := Access(rs, r), rHistory + [r];
      fs, fHistory := fs[r := Access(items, f)], Appended(fHistory, r, f);
    }
  }

  lemma AccessedLast(fs: map<RId, seq<FId>>, fHistory: map<RId, seq<FId>>, r: RId, f: FId)
    requires LastUses(fs, fHistory)
    ensures LastUses(fs[r := Access(if r in fs then fs[r] else [], f)], Appended(fHistory, r, f))
  {
    var h := if r in fHistory then fHistory[r] else [];
    assert (if r in fs then fs[r] else []) == KeepLast(h);
    AccessKeepsLast(h, f);
    hide KeepLast; hide Access;
  }

  lemma AccessedSorted(cfg: Config, fs: map<RId, seq<FId>>, f: FId)
    requires Sorted(cfg, fs) && f in cfg.funs
    ensures var r := cfg.funs[f].r; Sorted(cfg, fs[r := Access(if r in fs then fs[r] else [], f)])
  {
    var r := cfg.funs[f].r;
    AccessedIn(if r in fs then fs[r] else [], f);
  }

  lemma AccessedIn<U>(s: seq<U>, u: U)
    ensures forall x <- Access(s, u) :: x == u || x in s
  {
  }
}
