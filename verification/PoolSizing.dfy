/**
 The two assertions of the worker pool that a configuration can break: that a worker can be
 had for every request, and that a pool is fully populated when it is resized. A pool is
 resized only when its task changes to another R, and workers are created only when needed,
 so the assertions do not hold for every configuration; this is exactly when they do.
 */
module PoolSizing {
  import opened Pools
  import opened Scheduler
  import opened SchedulerInv
  import opened SchedulerHandSteps
  import opened SchedulerRuns
  import opened SchedulerTaskSteps
  import opened SchedulerTheorems
  import opened Tasks
  import opened TListSpec
  import opened Wrappers

  /** No wasm function allows more requests at a time than any function that shares its R,
      and if there are several Rs every function is a wasm function for one request at a time. */
  ghost predicate Compatible(cfg: Config) {
    && (forall f, g :: f in cfg.funs && g in cfg.funs && cfg.funs[f].r == cfg.funs[g].r && cfg.funs[g].wasm ==>
                         cfg.funs[g].concurrency <= cfg.funs[f].concurrency)
    && (forall f, g :: f in cfg.funs && g in cfg.funs && cfg.funs[f].r != cfg.funs[g].r ==>
                         cfg.funs[f].wasm && cfg.funs[f].concurrency == 1)
  }

  ghost predicate SeveralRs(cfg: Config) {
    exists f, g :: f in cfg.funs && g in cfg.funs && cfg.funs[f].r != cfg.funs[g].r
  }

  /** A task's pool has the size for some function of the R the task has the resources of,
      and once the task serves a function of several Rs, it has a worker. */
  ghost predicate Fits(cfg: Config, k: Task) {
    match k.workFor
    case None => k.resource == None && k.pool.size == 0
    case Some(f) =>
      && f in cfg.funs && k.resource == Some(cfg.funs[f].r)
      && (exists g :: g in cfg.funs && cfg.funs[g].r == cfg.funs[f].r && k.pool.size == cfg.funs[g].concurrency)
      && (SeveralRs(cfg) && !k.pc.At? ==> |k.pool.idle| + |k.pool.busy| >= 1)
  }

  ghost predicate AllFit(cfg: Config, s: State) {
    forall t <- s.tasks :: Fits(cfg, s.tasks[t])
  }

  lemma OneFits(cfg: Config, s: State, s': State, t: TId)
    requires AllFit(cfg, s) && t in s'.tasks && s'.tasks == s.tasks[t := s'.tasks[t]] && Fits(cfg, s'.tasks[t])
    ensures AllFit(cfg, s')
  {
    hide Fits;
    assert forall u :: u in s.tasks ==> Fits(cfg, s.tasks[u]);
  }

  /** A task turns to another function without meeting a pool it cannot resize. */
  lemma ServeFits(cfg: Config, k: Task, f: FId)
    requires cfg.Ok() && Compatible(cfg) && f in cfg.funs && TaskOk(k) && k.pc == Ready && Fits(cfg, k)
    requires k.iCount != 0 ==> k.workFor == Some(f)
    ensures Serve(cfg, k, f).Next?
    ensures var k' := Serve(cfg, k, f).task; k'.workFor == Some(f) && k'.resource == Some(cfg.funs[f].r)
    ensures var k' := Serve(cfg, k, f).task;
            exists g :: g in cfg.funs && cfg.funs[g].r == cfg.funs[f].r && k'.pool.size == cfg.funs[g].concurrency
  {
    if k.iCount == 0 {
      assert k.pool.busy == {};
    }
    if k.workFor.Some? && k.workFor != Some(f) && k.resource != Some(cfg.funs[f].r) {
      assert SeveralRs(cfg) && k.pool.size == 1;
    }
    hide Pool.Ok;
    if k.workFor != Some(f) && k.resource != Some(cfg.funs[f].r) {
      assert cfg.funs[f].r == cfg.funs[f].r;
    }
  }

  lemma PopFits(cfg: Config, s: State, t: TId)
    requires Inv(cfg, s) && Compatible(cfg) && AllFit(cfg, s) && t in s.tasks
    ensures match DoPop(cfg, s, t)
            case Disabled => true
            case To(s') => AllFit(cfg, s')
            case Crashes(c) => false
  {
    hide Inv; hide TaskOk; hide Placed; hide Wasm; hide AnswerInv; hide Compatible; hide Serve;
    var k := s.tasks[t];
    if k.pc == Ready && k.queue != [] {
      var q := k.queue[0];
      PhaseAt(cfg, s, t, q);
      AtTask(cfg, s, t, q);
      InvOk(cfg, s);
      ServeFits(cfg, k, s.reqs[q].f);
      var e := DoPop(cfg, s, t);
      if e.To? {
        OneFits(cfg, s, e.state, t);
      }
    }
  }

  /** The request at hand is one of those its function allows at a time. */
  lemma RoomForOneMore(cfg: Config, s: State, t: TId, q: ReqId)
    requires Inv(cfg, s) && t in s.tasks && s.tasks[t].pc == Pc.At(q)
    ensures q in s.reqs && s.reqs[q].f in cfg.funs && s.tasks[t].workFor == Some(s.reqs[q].f)
    ensures |s.tasks[t].pool.busy| < cfg.funs[s.reqs[q].f].concurrency
  {
    hide Inv; hide TaskInv; hide ListInv; hide Has; hide CountOf; hide Ok; hide Placed; hide Wasm;
    PhaseAt(cfg, s, t, q);
    AtTask(cfg, s, t, q);
    var f := s.reqs[q].f;
    ListOf(cfg, s, f);
    TaskOf(cfg, s, t);
    HasHome(cfg, s, t);
    HasIsCounted(s.lists[f], cfg.funs[f].concurrency, t);
    OwedIs(s, t);
    hide Owed;
  }

  /** While a pool has at least the size for the function its task serves, a worker can be had
      for every request, whatever the configuration. */
  lemma WorkerForEveryRequest(cfg: Config, s: State, t: TId, q: ReqId)
    requires cfg.Ok() && Reachable(cfg, s) && t in s.tasks && s.tasks[t].pc == Pc.At(q)
    requires s.tasks[t].workFor.Some? && s.tasks[t].workFor.value in cfg.funs
    requires s.tasks[t].pool.size >= cfg.funs[s.tasks[t].workFor.value].concurrency
    ensures s.tasks[t].pool.CanInvoke()
  {
    hide Inv; hide Reachable;
    ReachableOk(cfg, s);
    RoomForOneMore(cfg, s, t, q);
  }

  lemma InvokeFits(cfg: Config, s: State, t: TId, w: WId)
    requires Inv(cfg, s) && Compatible(cfg) && AllFit(cfg, s) && t in s.tasks
    ensures match DoInvoke(cfg, s, t, w)
            case Disabled => true
            case To(s') => AllFit(cfg, s')
            case Crashes(c) => false
  {
    hide Inv;
    var k := s.tasks[t];
    if AtWasm(cfg, s, k, true) {
      RoomForOneMore(cfg, s, t, k.pc.q);
      var f := s.reqs[k.pc.q].f;
      assert Fits(cfg, k);
      assert cfg.funs[f].concurrency <= k.pool.size;
      assert k.pool.CanInvoke();
      hide Compatible;
      var e := DoInvoke(cfg, s, t, w);
      if e.To? {
        assert k.pool.Chosen(w) in e.state.tasks[t].pool.busy;
        OneFits(cfg, s, e.state, t);
      }
    }
  }

  /** In a system of several Rs there is no native function. */
  lemma ExecuteFits(cfg: Config, s: State, t: TId, status: Status)
    requires Inv(cfg, s) && Compatible(cfg) && AllFit(cfg, s) && t in s.tasks && DoExecute(cfg, s, t, status).To?
    ensures AllFit(cfg, DoExecute(cfg, s, t, status).state)
  {
    hide Inv;
    var k := s.tasks[t];
    assert Fits(cfg, k);
    AllWasm(cfg, s.reqs[k.pc.q].f);
    hide Compatible; hide SeveralRs;
    OneFits(cfg, s, DoExecute(cfg, s, t, status).state, t);
  }

  lemma AllWasm(cfg: Config, f: FId)
    requires Compatible(cfg) && f in cfg.funs
    ensures SeveralRs(cfg) ==> cfg.funs[f].wasm
  {
  }

  lemma SamePoolFits(cfg: Config, k: Task, k': Task)
    requires Fits(cfg, k) && k'.workFor == k.workFor && k'.resource == k.resource && k'.pool.size == k.pool.size
    requires |k'.pool.idle| + |k'.pool.busy| == |k.pool.idle| + |k.pool.busy| && (k.pc.At? <==> k'.pc.At?)
    ensures Fits(cfg, k')
  {
    hide SeveralRs;
  }

  lemma StartFits(cfg: Config, s: State, t: TId, w: WId)
    requires AllFit(cfg, s) && t in s.tasks && DoStart(s, t, w).To?
    ensures AllFit(cfg, DoStart(s, t, w).state)
  {
    var k := s.tasks[t];
    assert Fits(cfg, k);
    hide Fits;
    SamePoolFits(cfg, k, k.(pool := k.pool.Start(w)));
    OneFits(cfg, s, DoStart(s, t, w).state, t);
  }

  lemma FinishFits(cfg: Config, s: State, t: TId, w: WId, status: Status)
    requires Inv(cfg, s) && AllFit(cfg, s) && t in s.tasks && DoFinish(s, t, w, status).To?
    ensures AllFit(cfg, DoFinish(s, t, w, status).state)
  {
    hide Inv;
    var k := s.tasks[t];
    TaskIsOk(cfg, s, t);
    assert Fits(cfg, k);
    hide Fits;
    PoolFinished(k, w, status);
    hide TaskOk;
    SamePoolFits(cfg, k, k.(pool := k.pool.Finish(w, status)));
    OneFits(cfg, s, DoFinish(s, t, w, status).state, t);
  }

  lemma PoolFinished(k: Task, w: WId, status: Status)
    requires TaskOk(k) && k.pool.CanFinish(w)
    ensures |k.pool.Finish(w, status).busy| == |k.pool.busy| - 1
  {
    FinishOk(k.pool, w, status);
  }

  lemma OwnFits(cfg: Config, s: State, t: TId)
    requires AllFit(cfg, s) && t in s.tasks
    ensures DoCollect(s, t).To? ==> AllFit(cfg, DoCollect(s, t).state)
    ensures DoReturn(cfg, s, t).To? ==> AllFit(cfg, DoReturn(cfg, s, t).state)
  {
    hide SeveralRs; hide ReturnOne; hide CountOf;
    assert Fits(cfg, s.tasks[t]);
    if DoCollect(s, t).To? {
      OneFits(cfg, s, DoCollect(s, t).state, t);
    }
    if DoReturn(cfg, s, t).To? {
      OneFits(cfg, s, DoReturn(cfg, s, t).state, t);
    }
  }

  lemma DispatchFits(cfg: Config, s: State, q: ReqId, m: Move)
    requires Inv(cfg, s) && AllFit(cfg, s) && q in s.reqs && s.reqs[q].f in cfg.funs
    ensures match Advance(cfg, s, q, m)
            case Disabled => true
            case To(s') => AllFit(cfg, s')
            case Crashes(c) => false
  {
    hide Inv; hide Fits; hide NewT; hide LruSpec.Access;
    var p := s.reqs[q].phase;
    if m.AddT? && p.Holding? && s.reqs[q].f in s.lists {
      AddTOk(cfg, s, q, p.t);
      AddKeepsTasks(cfg, s, q, p.t);
    } else if m.Push? && p.Reserved? && p.t in s.tasks {
      assert Fits(cfg, s.tasks[p.t]);
      PushFits(cfg, s.tasks[p.t], q);
      OneFits(cfg, s, PushQ(s, q, p.t), p.t);
    } else {
      assert forall t :: t in s.tasks ==> Fits(cfg, s.tasks[t]);
    }
  }

  lemma AddKeepsTasks(cfg: Config, s: State, q: ReqId, t: TId)
    requires q in s.reqs && s.reqs[q].f in cfg.funs && s.reqs[q].f in s.lists && AllFit(cfg, s)
    ensures NewT(cfg, s, q, t).To? ==> AllFit(cfg, NewT(cfg, s, q, t).state)
  {
    hide Fits; hide Adjust; hide Has; hide Cursor;
  }

  lemma PushFits(cfg: Config, k: Task, q: ReqId)
    requires Fits(cfg, k)
    ensures Fits(cfg, k.(queue := k.queue + [q]))
  {
  }

  lemma CreateFits(cfg: Config, s: State, q: ReqId, t: TId)
    requires AllFit(cfg, s) && q in s.reqs && CreateT(s, q, t).To?
    ensures AllFit(cfg, CreateT(s, q, t).state)
  {
    assert Fits(cfg, NEW_TASK);
    hide Fits;
    OneFits(cfg, s, CreateT(s, q, t).state, t);
  }

  /** The steps that do not touch a pool's size. */
  lemma OtherStepFits(cfg: Config, s: State, a: Action)
    requires Inv(cfg, s) && Compatible(cfg) && AllFit(cfg, s) && !a.Pop? && !a.InvokeW? && !a.Dispatch?
    requires Step(cfg, s, a).To?
    ensures AllFit(cfg, Step(cfg, s, a).state)
  {
    hide Inv; hide Compatible; hide DoExecute; hide DoStart; hide DoFinish; hide DoCollect; hide DoReturn; hide CreateT;
    hide AllFit;
    match a
    case Arrive(q, f) => ArriveFits(cfg, s, q, f);
    case Create(q, t) => CreateFits(cfg, s, q, t);
    case Execute(t, status) => ExecuteFits(cfg, s, t, status);
    case StartW(t, w) => StartFits(cfg, s, t, w);
    case FinishW(t, w, status) => FinishFits(cfg, s, t, w, status);
    case Collect(t) => OwnFits(cfg, s, t);
    case Return(t) => OwnFits(cfg, s, t);
  }

  lemma ArriveFits(cfg: Config, s: State, q: ReqId, f: FId)
    requires AllFit(cfg, s)
    ensures AllFit(cfg, s.(reqs := s.reqs[q := Req(f, Arrived)]))
  {
    hide Fits;
    assert forall t :: t in s.tasks ==> Fits(cfg, s.tasks[t]);
  }

  lemma StepFits(cfg: Config, s: State, a: Action)
    requires Inv(cfg, s) && Compatible(cfg) && AllFit(cfg, s)
    ensures match Step(cfg, s, a)
            case Disabled => true
            case To(s') => AllFit(cfg, s')
            case Crashes(c) => false
  {
    hide Inv; hide Compatible; hide Advance; hide DoPop; hide DoInvoke; hide DoExecute; hide DoStart; hide DoFinish;
    hide DoCollect; hide DoReturn; hide CreateT; hide AllFit;
    if a.Pop? {
      if a.t in s.tasks { PopFits(cfg, s, a.t); }
    } else if a.InvokeW? {
      if a.t in s.tasks { InvokeFits(cfg, s, a.t, a.w); }
    } else if a.Dispatch? {
      if a.q in s.reqs && s.reqs[a.q].f in cfg.funs { DispatchFits(cfg, s, a.q, a.move); }
    } else {
      NoCrash(cfg, s, a);
      if Step(cfg, s, a).To? { OtherStepFits(cfg, s, a); }
    }
  }

  lemma NoCrash(cfg: Config, s: State, a: Action)
    requires Inv(cfg, s) && !a.Pop? && !a.InvokeW? && !a.Dispatch?
    ensures !Step(cfg, s, a).Crashes?
  {
    hide Inv; hide DoExecute; hide DoStart; hide DoFinish; hide DoCollect; hide DoReturn;
    match a
    case Arrive(q, f) =>
    case Create(q, t) =>
    case Execute(t, status) => if t in s.tasks { ExecuteOk(cfg, s, t, status); }
    case StartW(t, w) => if t in s.tasks { StartWOk(cfg, s, t, w); }
    case FinishW(t, w, status) => if t in s.tasks { FinishWOk(cfg, s, t, w, status); }
    case Collect(t) => if t in s.tasks { CollectOk(cfg, s, t); }
    case Return(t) => if t in s.tasks { ReturnOk(cfg, s, t); }
  }

  /** With compatible functions no run ends in a crash of any kind. */
  lemma {:induction false} CompatibleNeverCrashes(cfg: Config, acts: seq<Action>)
    requires cfg.Ok() && Compatible(cfg)
    ensures match Run(cfg, acts)
            case Disabled => true
            case To(s) => Inv(cfg, s) && AllFit(cfg, s)
            case Crashes(c) => false
  {
    hide Inv; hide Step; hide Compatible; hide Config.Ok;
    if acts == [] {
      InitOk(cfg);
    } else {
      CompatibleNeverCrashes(cfg, acts[..|acts| - 1]);
      hide AllFit; hide Init;
      var e := Run(cfg, acts[..|acts| - 1]);
      if e.To? {
        StepOk(cfg, e.state, acts[|acts| - 1]);
        StepFits(cfg, e.state, acts[|acts| - 1]);
      }
    }
  }
}
