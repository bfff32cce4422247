/** Every request is answered: at most once always, and exactly once when nothing is left to do. */
module SchedulerLiveness {
  import opened Pools
  import opened Scheduler
  import opened SchedulerHandSteps
  import opened SchedulerInv
  import opened SchedulerRuns
  import opened SchedulerTaskSteps
  import opened SchedulerTheorems
  import opened Tasks
  import opened TListSpec
  import opened Wrappers

  /** Requests are answered at most once, and only requests that arrived. */
  lemma AnsweredAtMostOnce(cfg: Config, s: State)
    requires cfg.Ok() && Reachable(cfg, s)
    ensures forall i, j :: 0 <= i < j < |s.answers| ==> s.answers[i].q != s.answers[j].q
    ensures forall i :: 0 <= i < |s.answers| ==> s.answers[i].q in s.reqs
  {
    hide Inv; hide Reachable;
    ReachableOk(cfg, s);
    InvOk(cfg, s);
    forall i | 0 <= i < |s.answers|
      ensures s.answers[i].q in s.reqs
    {
      assert AnsweredIn(s, s.answers[i].q);
    }
  }

  /** Some thread can take a step (possibly its last), without another request arriving. */
  ghost predicate Busy(cfg: Config, s: State) {
    exists a :: CanStep(cfg, s, a)
  }

  ghost predicate CanStep(cfg: Config, s: State, a: Action) {
    !a.Arrive? && Step(cfg, s, a) != Disabled
  }

  lemma Fresh(m: set<nat>) returns (x: nat)
    ensures forall y <- m :: y < x
  {
    if y :| y in m {
      var above := Fresh(m - {y});
      x := if above > y then above else y + 1;
      assert forall z <- m :: z == y || z in m - {y};
    } else {
      x := 0;
    }
  }

  /** The holder of the dispatch lock can go on. */
  lemma HolderMoves(cfg: Config, s: State, q: ReqId)
    requires Inv(cfg, s) && q in s.reqs && s.reqs[q].phase.Locks()
    ensures Busy(cfg, s)
  {
    hide Inv; hide TakeT; hide ProbeF; hide Adjust; hide Cursor; hide Has;
    KnownFun(cfg, s, q);
    FunOf(cfg, s, s.reqs[q].f);
    match s.reqs[q].phase
    case Acquired => assert CanStep(cfg, s, Action.Dispatch(q, GetT));
    case NoSpare => assert CanStep(cfg, s, Action.Dispatch(q, SnapshotF));
    case Scan(todo, others) =>
      if todo != [] {
        assert CanStep(cfg, s, Action.Dispatch(q, Probe));
      } else if others == None {
        assert CanStep(cfg, s, Action.Dispatch(q, SnapshotR));
      } else if others.value != [] {
        assert CanStep(cfg, s, Action.Dispatch(q, NextR));
      } else {
        var t := Fresh(s.tasks.Keys);
        assert CanStep(cfg, s, Action.Create(q, t));
      }
    case Holding(t) => assert CanStep(cfg, s, Action.Dispatch(q, AddT));
    case Chosen(t) => assert CanStep(cfg, s, Action.Dispatch(q, Release));
  }

  /** A task in the middle of a request can go on. */
  lemma TaskMovesOn(cfg: Config, s: State, t: TId)
    requires Inv(cfg, s) && t in s.tasks && s.tasks[t].pc != Ready
    ensures Busy(cfg, s)
  {
    hide Inv; hide TaskOk; hide Placed; hide Wasm; hide AnswerInv; hide ReturnOne; hide InvokeWorker; hide EndRequest;
    hide CountOf;
    var k := s.tasks[t];
    if k.pc.Giving? {
      ReturnOk(cfg, s, t);
      assert CanStep(cfg, s, Action.Return(t));
    } else {
      var q := k.pc.q;
      PhaseAt(cfg, s, t, q);
      KnownFun(cfg, s, q);
      if cfg.funs[s.reqs[q].f].wasm {
        var w := Fresh(k.pool.workers.Keys);
        assert CanStep(cfg, s, Action.InvokeW(t, w));
      } else {
        assert CanStep(cfg, s, Action.Execute(t, Succeeded));
      }
    }
  }

  lemma InTaskMoves(cfg: Config, s: State, t: TId, q: ReqId)
    requires Inv(cfg, s) && t in s.tasks && q in s.reqs && OnlyOn(s.reqs[q].phase, t)
    ensures Busy(cfg, s)
  {
    hide Inv; hide TaskOk; hide Wasm; hide AnswerInv; hide DoPop; hide DoCollect; hide DoStart; hide DoFinish;
    hide Pool.CanStart; hide Pool.CanFinish;
    var k := s.tasks[t];
    AtTask(cfg, s, t, q);
    if k.pc != Ready {
      TaskMovesOn(cfg, s, t);
    } else {
      match s.reqs[q].phase
      case Reserved(_) =>
        assert CanStep(cfg, s, Action.Dispatch(q, Push));
      case Queued(_) =>
        PopOk(cfg, s, t);
        assert CanStep(cfg, s, Action.Pop(t));
      case InPool(_, w) =>
        assert WorksOn(k, w, q);
        assert k.pool.Ok() by { PoolIsOk(k); }
        WorkerMoves(cfg, s, t, w);
      case Finished(_) =>
        assert InDone(k, q);
        CollectOk(cfg, s, t);
        assert CanStep(cfg, s, Action.Collect(t));
    }
  }

  lemma PoolIsOk(k: Task)
    requires TaskOk(k)
    ensures k.pool.Ok()
  {
  }

  lemma WorkerMoves(cfg: Config, s: State, t: TId, w: WId)
    requires Inv(cfg, s) && t in s.tasks && s.tasks[t].pool.Ok() && w in s.tasks[t].pool.busy
    ensures Busy(cfg, s)
  {
    hide Inv; hide Pool.CanStart; hide Pool.CanFinish; hide Pool.Ok; hide DoStart; hide DoFinish;
    BusyCanProceed(s.tasks[t].pool, w);
    if s.tasks[t].pool.CanStart(w) {
      StartWOk(cfg, s, t, w);
      assert CanStep(cfg, s, Action.StartW(t, w));
    } else {
      FinishWOk(cfg, s, t, w, Succeeded);
      assert CanStep(cfg, s, Action.FinishW(t, w, Succeeded));
    }
  }

  /** The scheduler never blocks while a request is unfinished: whatever state a run has led
      to, some thread can go on. */
  lemma Progress(cfg: Config, s: State, q: ReqId)
    requires cfg.Ok() && Reachable(cfg, s) && q in s.reqs && s.reqs[q].phase != Over
    ensures Busy(cfg, s)
  {
    hide Inv; hide Reachable; hide Busy;
    ReachableOk(cfg, s);
    var p := s.reqs[q].phase;
    if p.Locks() {
      HolderMoves(cfg, s, q);
    } else if p.OnTask() {
      OnTaskIn(cfg, s, q);
      InTaskMoves(cfg, s, p.t, q);
    } else {
      EarlyMoves(cfg, s, q);
    }
  }

  lemma OnTaskIn(cfg: Config, s: State, q: ReqId)
    requires Inv(cfg, s) && q in s.reqs && s.reqs[q].phase.OnTask()
    ensures s.reqs[q].phase.t in s.tasks
  {
    assert ReqInv(cfg, s, q);
  }

  lemma EarlyMoves(cfg: Config, s: State, q: ReqId)
    requires Inv(cfg, s) && q in s.reqs && s.reqs[q].phase in {Arrived, RListed, FListed}
    ensures Busy(cfg, s)
  {
    hide Inv; hide LruSpec.Access;
    KnownFun(cfg, s, q);
    match s.reqs[q].phase
    case Arrived => assert CanStep(cfg, s, Action.Dispatch(q, AccessR));
    case RListed => assert CanStep(cfg, s, Action.Dispatch(q, AccessF));
    case FListed =>
      if s.lock == None {
        assert CanStep(cfg, s, Action.Dispatch(q, Acquire));
      } else {
        LockIn(cfg, s);
        hide Busy;
        HolderMoves(cfg, s, s.lock.value);
      }
  }

  lemma LockIn(cfg: Config, s: State)
    requires Inv(cfg, s) && s.lock.Some?
    ensures s.lock.value in s.reqs && s.reqs[s.lock.value].phase.Locks()
  {
    assert ReqInv(cfg, s, s.lock.value);
  }

  /** When nothing is left to do every request has been answered, exactly once, no lock is
      held, and every task is idle in its list with nothing outstanding. */
  lemma Quiescent(cfg: Config, s: State)
    requires cfg.Ok() && Reachable(cfg, s) && !Busy(cfg, s)
    ensures s.lock == None
    ensures forall q <- s.reqs :: exists i :: 0 <= i < |s.answers| && s.answers[i].q == q && forall j ::
            0 <= j < |s.answers| && s.answers[j].q == q ==> j == i
    ensures forall t <- s.tasks :: t in s.home && s.home[t] in s.lists && CountOf(s.lists[s.home[t]], t) == 0
    ensures forall t <- s.tasks :: s.tasks[t].pc == Ready && s.tasks[t].iCount == 0 && s.tasks[t].queue == []
                                   && s.tasks[t].pool.busy == {} && s.tasks[t].pool.done == []
  {
    hide Inv; hide Reachable; hide Busy; hide CountOf;
    forall q | q in s.reqs
      ensures s.reqs[q].phase == Over
    {
      if s.reqs[q].phase != Over {
        Progress(cfg, s, q);
      }
    }
    ReachableOk(cfg, s);
    if s.lock.Some? {
      LockIn(cfg, s);
    }
    forall q | q in s.reqs
      ensures exists i :: 0 <= i < |s.answers| && s.answers[i].q == q && forall j ::
              0 <= j < |s.answers| && s.answers[j].q == q ==> j == i
    {
      OverAnswered(cfg, s, q);
    }
    forall t | t in s.tasks
      ensures t in s.home && s.home[t] in s.lists && CountOf(s.lists[s.home[t]], t) == 0
      ensures s.tasks[t].pc == Ready && s.tasks[t].iCount == 0 && s.tasks[t].queue == [] && s.tasks[t].pool.busy == {}
              && s.tasks[t].pool.done == []
    {
      HomeUnlessHeld(cfg, s, t);
      assert Assigned(s, t) == {};
      Conservation(cfg, s, t);
      PoolBooks(cfg, s, t);
    }
  }

  lemma OverAnswered(cfg: Config, s: State, q: ReqId)
    requires Inv(cfg, s) && q in s.reqs && s.reqs[q].phase == Over
    ensures exists i :: 0 <= i < |s.answers| && s.answers[i].q == q && forall j ::
            0 <= j < |s.answers| && s.answers[j].q == q ==> j == i
  {
    assert AnsweredIn(s, q);
    hide AllLists; hide AllTasks; hide AllReqs; hide Homes;
    var i :| 0 <= i < |s.answers| && s.answers[i].q == q;
    assert forall j :: 0 <= j < |s.answers| && s.answers[j].q == q ==> j == i;
  }
}
