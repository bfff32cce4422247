/** The scheduler's properties over all runs. */
module SchedulerTheorems {
  import opened Pools
  import opened Scheduler
  import opened SchedulerHandSteps
  import opened SchedulerInv
  import opened SchedulerRuns
  import opened SchedulerTaskSteps
  import opened Sequences
  import opened Tasks
  import opened TListSpec

  /** In no interleaving is a task asked to serve two functions at a time, a pool resized
      while busy or above the limit, a finished request unknown to its task, or a task absent
      from the list it is given back to. */
  lemma OnlyPoolAssertionsFail(cfg: Config, acts: seq<Action>)
    requires cfg.Ok() && Run(cfg, acts).Crashes?
    ensures Run(cfg, acts).crash in {NoIdleWorker, ResizePartial}
  {
    RunOk(cfg, acts);
  }

  /** The requests counted for task t. */
  ghost function Assigned(s: State, t: TId): set<ReqId> {
    set q | q in s.reqs && s.reqs[q].phase.OnTask() && s.reqs[q].phase.t == t
  }

  /** Conservation: the count a list has for one of its tasks is the number of requests that
      are assigned to the task and not given back, wherever they are; they are all for the
      function whose list it is, and never more than its concurrency. */
  lemma Conservation(cfg: Config, s: State, t: TId)
    requires cfg.Ok() && Reachable(cfg, s) && t in s.home
    ensures t in s.tasks && s.home[t] in cfg.funs && s.home[t] in s.lists
    ensures var f := s.home[t];
            && CountOf(s.lists[f], t) == |Waiting(s, t)| + |s.tasks[t].queue| + s.tasks[t].iCount
               + B(s.tasks[t].pc.Giving?)
            && CountOf(s.lists[f], t) == |Assigned(s, t)|
            && 0 <= CountOf(s.lists[f], t) <= cfg.funs[f].concurrency
            && (forall q <- Assigned(s, t) :: s.reqs[q].f == f)
  {
    hide Inv; hide Reachable; hide TaskInv; hide ListInv; hide Has; hide CountOf; hide Ok; hide Owed;
    ReachableOk(cfg, s);
    HomeIn(cfg, s, t);
    var f := s.home[t];
    ListOf(cfg, s, f);
    TaskOf(cfg, s, t);
    HasHome(cfg, s, t);
    HasIsCounted(s.lists[f], cfg.funs[f].concurrency, t);
    AssignedCount(cfg, s, t);
    OwedIs(s, t);
    forall q | q in Assigned(s, t)
      ensures s.reqs[q].f == f
    {
      AssignedHome(cfg, s, q);
    }
  }

  lemma OwedIs(s: State, t: TId)
    requires t in s.tasks
    ensures Owed(s, t) == |Waiting(s, t)| + |s.tasks[t].queue| + s.tasks[t].iCount + B(s.tasks[t].pc.Giving?)
  {
  }

  lemma HomeIn(cfg: Config, s: State, t: TId)
    requires Inv(cfg, s) && t in s.home
    ensures t in s.tasks && s.home[t] in cfg.funs
  {
  }

  lemma HasHome(cfg: Config, s: State, t: TId)
    requires Inv(cfg, s) && t in s.home && s.home[t] in cfg.funs
    ensures s.home[t] in s.lists && Has(s.lists[s.home[t]], t)
  {
    hide Has; hide Ok;
    assert ListInv(cfg, s, s.home[t]);
  }

  lemma AssignedHome(cfg: Config, s: State, q: ReqId)
    requires Inv(cfg, s) && q in s.reqs && s.reqs[q].phase.OnTask()
    ensures s.reqs[q].phase.t in s.home && s.home[s.reqs[q].phase.t] == s.reqs[q].f
  {
    assert ReqInv(cfg, s, q);
  }

  /* The requests a task keeps, place by place. */

  ghost function InQueue(k: Task): set<ReqId> {
    set q | q in k.queue
  }

  ghost function InHands(k: Task): set<ReqId> {
    match k.pc
    case Ready => {}
    case At(q) => {q}
    case Giving(q) => {q}
  }

  ghost function WithWorkers(k: Task): set<ReqId> {
    set w | w in k.pool.busy :: k.pool.Request(w)
  }

  ghost function ReportedDone(k: Task): set<ReqId> {
    set i | 0 <= i < |k.pool.done| :: k.pool.done[i].q
  }

  lemma {:induction false} DistinctCard<X>(s: seq<X>)
    requires Distinct(s)
    ensures |set x | x in s| == |s|
  {
    if s != [] {
      var rest := s[..|s| - 1];
      DistinctCard(rest);
      assert (set x | x in s) == (set x | x in rest) + {s[|s| - 1]};
      assert s[|s| - 1] !in rest;
    }
  }

  lemma {:induction false} DoneCard(done: seq<Done>)
    requires DistinctDone(done)
    ensures |set i | 0 <= i < |done| :: done[i].q| == |done|
  {
    if done != [] {
      var n := |done| - 1;
      var rest := done[..n];
      DoneCard(rest);
      var all := set i | 0 <= i < |done| :: done[i].q;
      var others := set i | 0 <= i < |rest| :: rest[i].q;
      forall q
        ensures q in all <==> q in others || q == done[n].q
      {
        if q in all && q != done[n].q {
          var i :| 0 <= i < |done| && done[i].q == q;
          assert rest[i].q == q;
        }
        if q in others {
          var i :| 0 <= i < |rest| && rest[i].q == q;
          assert done[i].q == q;
        }
      }
      assert all == others + {done[n].q};
    }
  }

  lemma {:induction false} WorkersCard(k: Task, ws: set<WId>)
    requires forall v, w :: v in ws && w in ws && v != w ==> k.pool.Request(v) != k.pool.Request(w)
    ensures |set w | w in ws :: k.pool.Request(w)| == |ws|
    decreases |ws|
  {
    hide Pool.Request;
    if w :| w in ws {
      var rest := ws - {w};
      WorkersCard(k, rest);
      var all := set v | v in ws :: k.pool.Request(v);
      var others := set v | v in rest :: k.pool.Request(v);
      assert k.pool.Request(w) !in others;
      assert all == others + {k.pool.Request(w)};
    }
  }

  /** Each request is in the place its phase says and in no other. */
  lemma PlaceOf(cfg: Config, s: State, t: TId, q: ReqId)
    requires t in s.tasks && TaskInv(cfg, s, t)
    ensures var k, p := s.tasks[t], PhaseOn(s, q, t);
            && (q in Assigned(s, t) <==> p != Over)
            && (q in Waiting(s, t) <==> p == Reserved(t))
            && (q in InQueue(k) <==> p == Queued(t))
            && (q in InHands(k) <==> p == Entered(t) || p == Answered(t))
            && (q in WithWorkers(k) <==> p.InPool? && p.t == t)
            && (q in ReportedDone(k) <==> p == Finished(t))
  {
    var k, p := s.tasks[t], PhaseOn(s, q, t);
    assert Placed(k, t, q, p, Wasm(cfg, s, q));
    PhaseKinds(s, q, t);
    hide TaskInv; hide Wasm;
    WithWorkersIs(k, q);
    if InDone(k, q) {
      var i :| 0 <= i < |k.pool.done| && k.pool.done[i].q == q;
      assert q in ReportedDone(k);
    }
    hide WorksOn; hide InDone; hide PhaseOn;
    if p.InPool? && p.t == t {
      assert WorksOn(k, p.w, q);
    }
  }

  lemma WithWorkersIs(k: Task, q: ReqId)
    ensures q in WithWorkers(k) <==> exists w :: WorksOn(k, w, q)
  {
    hide Pool.Request;
    if w :| w in k.pool.busy && k.pool.Request(w) == q {
      assert WorksOn(k, w, q);
    }
  }

  lemma PhaseKinds(s: State, q: ReqId, t: TId)
    ensures q in Assigned(s, t) <==> PhaseOn(s, q, t) != Over
    ensures q in Waiting(s, t) <==> PhaseOn(s, q, t) == Reserved(t)
  {
  }

  lemma SumOf<X>(all: set<X>, a: set<X>, b: set<X>, c: set<X>, d: set<X>, e: set<X>)
    requires all == a + b + c + d + e && a !! b !! c !! d !! e
    ensures |all| == |a| + |b| + |c| + |d| + |e|
  {
  }

  lemma AssignedCount(cfg: Config, s: State, t: TId)
    requires Inv(cfg, s) && t in s.tasks
    ensures |Assigned(s, t)| == Owed(s, t)
  {
    hide Inv; hide TaskInv; hide PhaseOn; hide Waiting; hide Assigned; hide InHands; hide WithWorkers;
    hide ReportedDone; hide Placed; hide InQueue; hide TaskOk;
    var k := s.tasks[t];
    TaskOf(cfg, s, t);
    TaskIsOk(cfg, s, t);
    forall q
      ensures q in Assigned(s, t) <==> q in Waiting(s, t) + InQueue(k) + InHands(k) + WithWorkers(k) + ReportedDone(k)
    {
      PlaceOf(cfg, s, t, q);
      PhaseOnKinds(s, q, t);
    }
    forall q
      ensures q in Waiting(s, t) ==>
                q !in InQueue(k) && q !in InHands(k) && q !in WithWorkers(k) && q !in ReportedDone(k)
      ensures q in InQueue(k) ==> q !in InHands(k) && q !in WithWorkers(k) && q !in ReportedDone(k)
      ensures q in InHands(k) ==> q !in WithWorkers(k) && q !in ReportedDone(k)
      ensures q in WithWorkers(k) ==> q !in ReportedDone(k)
    {
      PlaceOf(cfg, s, t, q);
    }
    SumOf(Assigned(s, t), Waiting(s, t), InQueue(k), InHands(k), WithWorkers(k), ReportedDone(k));
    PlaceCards(cfg, s, t);
  }

  lemma PhaseOnKinds(s: State, q: ReqId, t: TId)
    ensures var p := PhaseOn(s, q, t);
            p == Over || p == Reserved(t) || p == Queued(t) || p == Entered(t) || p == Answered(t) || p == Finished(t)
              || (p.InPool? && p.t == t)
  {
  }

  lemma PlaceCards(cfg: Config, s: State, t: TId)
    requires t in s.tasks && TaskInv(cfg, s, t) && TaskOk(s.tasks[t])
    ensures var k := s.tasks[t];
            |Waiting(s, t)| + |InQueue(k)| + |InHands(k)| + |WithWorkers(k)| + |ReportedDone(k)| == Owed(s, t)
  {
    var k := s.tasks[t];
    hide TaskInv; hide Pool.Ok; hide Waiting;
    DistinctCard(k.queue);
    DoneCard(k.pool.done);
    forall v, w | v in k.pool.busy && w in k.pool.busy && v != w
      ensures k.pool.Request(v) != k.pool.Request(w)
    {
      if k.pool.Request(v) == k.pool.Request(w) {
        OneWorker(cfg, s, t, v, w);
      }
    }
    WorkersCard(k, k.pool.busy);
  }

  /** Two workers never have the same request. */
  lemma OneWorker(cfg: Config, s: State, t: TId, v: WId, w: WId)
    requires t in s.tasks && TaskInv(cfg, s, t)
    requires v in s.tasks[t].pool.busy && w in s.tasks[t].pool.busy
             && s.tasks[t].pool.Request(v) == s.tasks[t].pool.Request(w)
    ensures v == w
  {
    var k := s.tasks[t];
    var q := k.pool.Request(v);
    assert Placed(k, t, q, PhaseOn(s, q, t), Wasm(cfg, s, q));
    assert WorksOn(k, v, q) && WorksOn(k, w, q);
  }

  /** A task is in exactly one list, except the one task that the holder of the dispatch lock
      has in its hands: that one is in none and no request is assigned to it. */
  lemma InOneList(cfg: Config, s: State, t: TId)
    requires cfg.Ok() && Reachable(cfg, s) && t in s.tasks
    ensures s.lists.Keys == cfg.funs.Keys
    ensures Held(s, t) ==> Assigned(s, t) == {} && forall f <- cfg.funs :: !Has(s.lists[f], t)
    ensures !Held(s, t) ==> exists f :: f in s.lists && Has(s.lists[f], t) && forall g <- s.lists :: g != f ==>
            !Has(s.lists[g], t)
  {
    hide Inv; hide Reachable; hide Has; hide CountOf; hide Ok;
    ReachableOk(cfg, s);
    forall f
      ensures f in s.lists <==> f in cfg.funs
    {
      FunOf(cfg, s, f);
    }
    forall f | f in cfg.funs
      ensures Has(s.lists[f], t) <==> t in s.home && s.home[t] == f
    {
      ListOf(cfg, s, f);
    }
    if Held(s, t) {
      HeldBy(cfg, s, s.lock.value, t);
      assert forall q :: q in Assigned(s, t) ==> PhaseOn(s, q, t) != Over;
    } else {
      assert t in s.home && s.home[t] in cfg.funs by { HomeUnlessHeld(cfg, s, t); }
    }
  }

  lemma HomeUnlessHeld(cfg: Config, s: State, t: TId)
    requires Inv(cfg, s) && t in s.tasks && !Held(s, t)
    ensures t in s.home && s.home[t] in cfg.funs
  {
  }

  /** Between steps of a task: its count of requests in progress is the busy workers and the
      finished requests it has not seen, on top of the one it may have at hand; workers wait
      or are busy but never both, within the size of the pool, and a busy one has exactly one
      request that no other has. */
  lemma PoolBooks(cfg: Config, s: State, t: TId)
    requires cfg.Ok() && Reachable(cfg, s) && t in s.tasks
    ensures var k := s.tasks[t];
            && k.iCount == |k.pool.busy| + |k.pool.done| + B(k.pc.At?)
            && |k.pool.idle| + |k.pool.busy| <= k.pool.size
            && Distinct(k.pool.idle) && (forall w <- k.pool.idle :: w !in k.pool.busy)
            && (forall v, w :: v in k.pool.busy && w in k.pool.busy && k.pool.Request(v) == k.pool.Request(w) ==>
                v == w)
            && (forall w <- k.pool.busy ::
                  k.pool.Request(w) in s.reqs && s.reqs[k.pool.Request(w)].phase == InPool(t, w))
  {
    hide Inv; hide Reachable; hide TaskInv; hide WorksOn; hide Pool.Request;
    var k := s.tasks[t];
    ReachableOk(cfg, s);
    TaskIsOk(cfg, s, t);
    TaskOf(cfg, s, t);
    forall v, w | v in k.pool.busy && w in k.pool.busy && k.pool.Request(v) == k.pool.Request(w)
      ensures v == w
    {
      OneWorker(cfg, s, t, v, w);
    }
    forall w | w in k.pool.busy
      ensures k.pool.Request(w) in s.reqs && s.reqs[k.pool.Request(w)].phase == InPool(t, w)
    {
      WorkerHas(k, w);
      PhaseAt(cfg, s, t, k.pool.Request(w));
    }
  }

  lemma WorkerHas(k: Task, w: WId)
    requires w in k.pool.busy
    ensures WorksOn(k, w, k.pool.Request(w))
  {
  }

  /** What a task reports about itself: `Good!` when its count equals its busy workers and
      these and the waiting ones fit into the pool. */
  predicate Good(k: Task) {
    k.iCount == |k.pool.busy| && |k.pool.busy| + |k.pool.idle| <= k.pool.size
  }

  /** A task reports itself good exactly when it has no request at hand and no finished
      request is waiting to be seen: pending completions are reported as bad. */
  lemma GoodIffNothingPending(cfg: Config, s: State, t: TId)
    requires cfg.Ok() && Reachable(cfg, s) && t in s.tasks
    ensures Good(s.tasks[t]) <==> !s.tasks[t].pc.At? && s.tasks[t].pool.done == []
  {
    hide Reachable; hide Pool.Request;
    PoolBooks(cfg, s, t);
  }

  /** The entries a task keeps for its wasm requests are exactly those of the request it has at
      hand, of its busy workers and of its done queue: the lookup of a finished request never
      fails. */
  lemma EntriesHeld(cfg: Config, s: State, t: TId, q: ReqId)
    requires cfg.Ok() && Reachable(cfg, s) && t in s.tasks
    ensures q in s.tasks[t].entries <==>
            (s.tasks[t].pc == Pc.At(q) && Wasm(cfg, s, q)) || (exists w :: WorksOn(s.tasks[t], w, q))
              || InDone(s.tasks[t], q)
  {
    hide Inv; hide Reachable; hide TaskInv; hide WorksOn; hide InDone; hide Wasm;
    ReachableOk(cfg, s);
    TaskOf(cfg, s, t);
    PlacedOf(cfg, s, t, q);
    var p := PhaseOn(s, q, t);
    PhaseOnKinds(s, q, t);
    hide PhaseOn;
    if p.InPool? {
      assert WorksOn(s.tasks[t], p.w, q);
    }
  }

  lemma PlacedOf(cfg: Config, s: State, t: TId, q: ReqId)
    requires t in s.tasks && TaskInv(cfg, s, t)
    ensures Placed(s.tasks[t], t, q, PhaseOn(s, q, t), Wasm(cfg, s, q))
  {
  }
}
