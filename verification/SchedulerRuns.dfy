/** What holds in every state the scheduler can reach. */
module SchedulerRuns {
  import opened Pools
  import opened Scheduler
  import opened SchedulerHandSteps
  import opened SchedulerInv
  import opened SchedulerTaskSteps
  import opened Tasks
  import opened TListSpec
  import opened Wrappers

  lemma InitOk(cfg: Config)
    requires cfg.Ok()
    ensures Inv(cfg, Init(cfg))
  {
    var s := Init(cfg);
    assert forall f, t :: f in cfg.funs ==> !Has(s.lists[f], t);
    assert forall q :: !AnsweredIn(s, q);
  }

  predicate IsQuiet(m: Move) {
    m.AccessR? || m.AccessF? || m.Acquire? || m.SnapshotF? || m.SnapshotR? || m.NextR? || m.Release?
  }

  predicate Unlisted(p: Phase) {
    !p.OnTask() && !p.Holding? && !p.Over?
  }

  lemma QuietTo(s: State, s': State, q: ReqId, p: Phase)
    requires s' == s.(rs := s'.rs, fs := s'.fs, lock := s'.lock, reqs := s'.reqs)
    requires q in s.reqs && s'.reqs == s.reqs[q := s.reqs[q].(phase := p)]
    requires (Unlisted(s.reqs[q].phase) && Unlisted(p)) || (s.reqs[q].phase.Chosen? && p == Reserved(s.reqs[q].phase.t))
    requires p.Locks() <==> s'.lock == Some(q)
    requires s'.lock == s.lock || (s.lock == None && s'.lock == Some(q)) || (s.lock == Some(q) && s'.lock == None)
    ensures Quiet(s, s', q)
  {
    assert forall t :: PhaseOn(s', q, t) == PhaseOn(s, q, t);
  }

  /** The steps that move no task in or out of a list, and touch no count. */
  lemma QuietStepOk(cfg: Config, s: State, q: ReqId, m: Move, s': State)
    requires Inv(cfg, s) && IsQuiet(m)
    requires q in s.reqs && s.reqs[q].f in cfg.funs && Advance(cfg, s, q, m) == To(s')
    ensures Inv(cfg, s')
  {
    hide Inv; hide LruSpec.Access; hide Quiet; hide State.FList;
    LockOf(cfg, s, q);
    QuietTo(s, s', q, s'.reqs[q].phase);
    hide Advance;
    QuietOk(cfg, s, s', q);
  }

  /** A step of a dispatching thread. */
  lemma DispatchOk(cfg: Config, s: State, q: ReqId, m: Move)
    requires Inv(cfg, s) && q in s.reqs && s.reqs[q].f in cfg.funs
    ensures match Advance(cfg, s, q, m)
            case Disabled => true
            case To(s') => Inv(cfg, s')
            case Crashes(c) => false
  {
    hide Inv; hide TakeT; hide ProbeF; hide NewT; hide PushQ; hide LruSpec.Access;
    var p := s.reqs[q].phase;
    if IsQuiet(m) {
      var e := Advance(cfg, s, q, m);
      if e.To? {
        QuietStepOk(cfg, s, q, m, e.state);
      }
    } else if m.GetT? && p.Acquired? && s.reqs[q].f in s.lists {
      GetTOk(cfg, s, q);
    } else if m.Probe? && p.Scan? && p.todo != [] {
      ProbeOk(cfg, s, q);
    } else if m.AddT? && p.Holding? && s.reqs[q].f in s.lists {
      AddTOk(cfg, s, q, p.t);
    } else if m.Push? && p.Reserved? && p.t in s.tasks {
      PushOk(cfg, s, q, p.t);
    }
  }

  lemma LockOf(cfg: Config, s: State, q: ReqId)
    requires Inv(cfg, s) && q in s.reqs
    ensures s.reqs[q].phase.Locks() <==> s.lock == Some(q)
  {
    assert ReqInv(cfg, s, q);
  }

  lemma StepOk(cfg: Config, s: State, a: Action)
    requires Inv(cfg, s)
    ensures match Step(cfg, s, a)
            case Disabled => true
            case To(s') => Inv(cfg, s')
            case Crashes(c) => c in {NoIdleWorker, ResizePartial}
  {
    hide Inv; hide Advance; hide DoPop; hide DoInvoke; hide DoExecute; hide DoStart; hide DoFinish; hide DoCollect;
    hide DoReturn;
    match a
    case Arrive(q, f) =>
      if q !in s.reqs && f in cfg.funs {
        LockNotNew(cfg, s, q);
        QuietOk(cfg, s, s.(reqs := s.reqs[q := Req(f, Arrived)]), q);
      }
    case Create(q, t) => if q in s.reqs && s.reqs[q].phase.Scan? && t !in s.tasks {
        KnownFun(cfg, s, q);
        CreateOk(cfg, s, q, t);
      }
    case Pop(t) => if t in s.tasks { PopOk(cfg, s, t); }
    case InvokeW(t, w) => if t in s.tasks { InvokeWOk(cfg, s, t, w); }
    case Execute(t, status) => if t in s.tasks { ExecuteOk(cfg, s, t, status); }
    case StartW(t, w) => if t in s.tasks { StartWOk(cfg, s, t, w); }
    case FinishW(t, w, status) => if t in s.tasks { FinishWOk(cfg, s, t, w, status); }
    case Collect(t) => if t in s.tasks { CollectOk(cfg, s, t); }
    case Return(t) => if t in s.tasks { ReturnOk(cfg, s, t); }
    case Dispatch(q, m) => if q in s.reqs && s.reqs[q].f in cfg.funs { DispatchOk(cfg, s, q, m); }
  }

  lemma LockNotNew(cfg: Config, s: State, q: ReqId)
    requires Inv(cfg, s) && q !in s.reqs
    ensures s.lock != Some(q)
  {
  }

  lemma KnownFun(cfg: Config, s: State, q: ReqId)
    requires Inv(cfg, s) && q in s.reqs
    ensures s.reqs[q].f in cfg.funs
  {
    assert ReqInv(cfg, s, q);
  }

  lemma {:induction false} RunOk(cfg: Config, acts: seq<Action>)
    requires cfg.Ok()
    ensures match Run(cfg, acts)
            case Disabled => true
            case To(s) => Inv(cfg, s)
            case Crashes(c) => c in {NoIdleWorker, ResizePartial}
  {
    hide Inv; hide Step; hide Init;
    if acts == [] {
      InitOk(cfg);
    } else {
      RunOk(cfg, acts[..|acts| - 1]);
      var e := Run(cfg, acts[..|acts| - 1]);
      if e.To? {
        StepOk(cfg, e.state, acts[|acts| - 1]);
      }
    }
  }

  lemma ReachableOk(cfg: Config, s: State)
    requires cfg.Ok() && Reachable(cfg, s)
    ensures Inv(cfg, s)
  {
    hide Inv; hide Run;
    var acts :| Run(cfg, acts) == To(s);
    RunOk(cfg, acts);
  }
}
