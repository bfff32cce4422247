/**
 The dispatching thread's steps, taken without a step of another thread in between, find the
 task that `TaskPools.GetTask` says and leave the lists as it says: the dispatch described as
 one locked section and the dispatch the scheduler interleaves are the same.
 */
module SoloDispatch {
  import TaskPools
  import opened Pools
  import opened Scheduler
  import opened SchedulerHandSteps
  import opened SchedulerInv
  import opened SchedulerRuns
  import opened Tasks
  import opened TListSpec
  import opened Wrappers

  /** The action the holder q of the dispatch lock takes next, with tid as the id of a new task. */
  function NextAction(s: State, q: ReqId, tid: TId): Action
    requires q in s.reqs
  {
    match s.reqs[q].phase
    case Acquired => Action.Dispatch(q, GetT)
    case NoSpare => Action.Dispatch(q, SnapshotF)
    case Scan(todo, others) =>
      if todo != [] then Action.Dispatch(q, Probe)
      else if others == None then Action.Dispatch(q, SnapshotR)
      else if others.value != [] then Action.Dispatch(q, NextR)
      else Action.Create(q, tid)
    case _ => Action.Dispatch(q, AddT)
  }

  /** The state after n steps of q alone. */
  function Alone(cfg: Config, s: State, q: ReqId, tid: TId, n: nat): State {
    if n == 0 then s
    else
      var before := Alone(cfg, s, q, tid, n - 1);
      if q !in before.reqs then before
      else
        var e := Step(cfg, before, NextAction(before, q, tid));
        if e.To? then e.state else before
  }

  /** q alone leads from s to s'. */
  ghost predicate Leads(cfg: Config, s: State, q: ReqId, tid: TId, s': State) {
    exists n: nat :: Alone(cfg, s, q, tid, n) == s'
  }

  lemma LeadsSelf(cfg: Config, s: State, q: ReqId, tid: TId)
    ensures Leads(cfg, s, q, tid, s)
  {
    assert Alone(cfg, s, q, tid, 0) == s;
  }

  /** One more step. */
  lemma LeadsOn(cfg: Config, s: State, q: ReqId, tid: TId, a: State, b: State)
    requires Leads(cfg, s, q, tid, a) && q in a.reqs && Step(cfg, a, NextAction(a, q, tid)) == To(b)
    ensures Leads(cfg, s, q, tid, b)
  {
    var n: nat :| Alone(cfg, s, q, tid, n) == a;
    hide Step; hide NextAction;
    assert Alone(cfg, s, q, tid, n + 1) == b;
  }

  /** The state once q has the idle task of v in hand. */
  function InHand(s: State, q: ReqId, v: FId): State
    requires q in s.reqs && TaskPools.HasIdle(s.lists, v)
  {
    var t := s.lists[v][|s.lists[v]| - 1].t;
    s.(lists := s.lists[v := TakeIdle(s.lists[v])], home := s.home - {t}).At(q, Holding(t))
  }

  lemma ProbeStep(cfg: Config, s: State, q: ReqId, tid: TId, todo: seq<FId>, others: Option<seq<RId>>)
    requires q in s.reqs && s.reqs[q].f in cfg.funs && todo != []
    ensures var a := s.At(q, Scan(todo, others));
            var f := todo[0];
            Step(cfg, a, NextAction(a, q, tid)) ==
            if TaskPools.HasIdle(s.lists, f) && (others == None ==> f != s.reqs[q].f) then To(InHand(s, q, f))
            else To(s.At(q, Scan(todo[1..], others)))
  {
    hide IdleAtBack; hide TakeIdle;
  }

  /** Looking through the functions still to look at stops at the first that can give a task. */
  lemma {:induction false} Probes(cfg: Config, s0: State, s: State, q: ReqId, tid: TId, fs: seq<FId>, from: nat,
                                  others: Option<seq<RId>>)
    requires q in s.reqs && s.reqs[q].f in cfg.funs && from <= |fs|
    requires Leads(cfg, s0, q, tid, s.At(q, Scan(fs[from..], others)))
    ensures var skip := if others == None then Some(s.reqs[q].f) else None;
            var i := TaskPools.FirstIdle(s.lists, fs, skip, from);
            if i < |fs| then Leads(cfg, s0, q, tid, InHand(s, q, fs[i]))
            else Leads(cfg, s0, q, tid, s.At(q, Scan([], others)))
    decreases |fs| - from
  {
    hide Leads; hide Step; hide NextAction; hide InHand; hide TaskPools.HasIdle;
    if from == |fs| {
      assert fs[from..] == [];
    } else {
      var a := s.At(q, Scan(fs[from..], others));
      var f := fs[from];
      assert fs[from..][0] == f && fs[from..][1..] == fs[from + 1..];
      ProbeStep(cfg, s, q, tid, fs[from..], others);
      if TaskPools.HasIdle(s.lists, f) && (others == None ==> f != s.reqs[q].f) {
        LeadsOn(cfg, s0, q, tid, a, InHand(s, q, f));
      } else {
        LeadsOn(cfg, s0, q, tid, a, s.At(q, Scan(fs[from + 1..], others)));
        Probes(cfg, s0, s, q, tid, fs, from + 1, others);
      }
    }
  }

  lemma NextRStep(cfg: Config, s: State, q: ReqId, tid: TId, rs: seq<RId>)
    requires q in s.reqs && s.reqs[q].f in cfg.funs && rs != []
    ensures var a := s.At(q, Scan([], Some(rs)));
            Step(cfg, a, NextAction(a, q, tid)) ==
            To(s.At(q, Scan(if rs[0] == cfg.funs[s.reqs[q].f].r then []
                            else TaskPools.FList(s.fs, rs[0]), Some(rs[1..]))))
  {
  }

  /** Looking through the other Rs stops at the first one of whose functions can give a task. */
  lemma {:induction false} OtherRs(cfg: Config, s0: State, s: State, q: ReqId, tid: TId, rs: seq<RId>, from: nat)
    requires q in s.reqs && s.reqs[q].f in cfg.funs && from <= |rs|
    requires Leads(cfg, s0, q, tid, s.At(q, Scan([], Some(rs[from..]))))
    ensures var j := TaskPools.FirstR(s.lists, s.fs, rs, cfg.funs[s.reqs[q].f].r, from);
            if j < |rs| then
              var fs := TaskPools.FList(s.fs, rs[j]);
              Leads(cfg, s0, q, tid, InHand(s, q, fs[TaskPools.FirstIdle(s.lists, fs, None, 0)]))
            else Leads(cfg, s0, q, tid, s.At(q, Scan([], Some([]))))
    decreases |rs| - from
  {
    hide Leads; hide Step; hide NextAction; hide InHand; hide TaskPools.FList; hide TaskPools.FirstIdle;
    if from == |rs| {
      assert rs[from..] == [];
    } else {
      var r := cfg.funs[s.reqs[q].f].r;
      var rest := Some(rs[from + 1..]);
      assert rs[from..][0] == rs[from] && rs[from..][1..] == rs[from + 1..];
      NextRStep(cfg, s, q, tid, rs[from..]);
      var fs := if rs[from] == r then [] else TaskPools.FList(s.fs, rs[from]);
      assert fs[0..] == fs;
      LeadsOn(cfg, s0, q, tid, s.At(q, Scan([], Some(rs[from..]))), s.At(q, Scan(fs, rest)));
      Probes(cfg, s0, s, q, tid, fs, 0, rest);
      if TaskPools.FirstIdle(s.lists, fs, None, 0) == |fs| {
        OtherRs(cfg, s0, s, q, tid, rs, from + 1);
      }
    }
  }

  lemma {:induction false} AloneKeeps(cfg: Config, s: State, q: ReqId, tid: TId, n: nat)
    requires Inv(cfg, s)
    ensures Inv(cfg, Alone(cfg, s, q, tid, n))
  {
    hide Inv; hide Step; hide NextAction;
    if n > 0 {
      AloneKeeps(cfg, s, q, tid, n - 1);
      var before := Alone(cfg, s, q, tid, n - 1);
      if q in before.reqs {
        StepOk(cfg, before, NextAction(before, q, tid));
      }
    }
  }

  lemma LeadsKeeps(cfg: Config, s: State, q: ReqId, tid: TId, s': State)
    requires Inv(cfg, s) && Leads(cfg, s, q, tid, s')
    ensures Inv(cfg, s')
  {
    hide Inv;
    var n: nat :| Alone(cfg, s, q, tid, n) == s';
    AloneKeeps(cfg, s, q, tid, n);
  }

  /** The task in hand joins the list of f. */
  lemma JoinsList(cfg: Config, s0: State, s: State, q: ReqId, tid: TId, t: TId)
    requires Inv(cfg, s0) && Leads(cfg, s0, q, tid, s) && q in s.reqs && s.reqs[q].phase == Holding(t)
    requires s.reqs[q].f in cfg.funs && s.reqs[q].f in s.lists
    ensures var f := s.reqs[q].f;
            var s' := s.(lists := s.lists[f := Adjust(s.lists[f], cfg.funs[f].concurrency, t, 1)],
                         home := s.home[t := f]).At(q, Chosen(t));
            Leads(cfg, s0, q, tid, s')
  {
    hide Inv; hide Leads; hide Adjust; hide Has; hide Cursor;
    LeadsKeeps(cfg, s0, q, tid, s);
    AddTOk(cfg, s, q, t);
    LeadsOn(cfg, s0, q, tid, s, NewT(cfg, s, q, t).state);
  }

  /** The end of a dispatch: got.t is chosen, and the lists are got.lists. */
  ghost predicate Ends(s: State, s': State, q: ReqId, got: TaskPools.Got) {
    && q in s.reqs && s'.reqs == s.reqs[q := Req(s.reqs[q].f, Chosen(got.t))] && s'.lists == got.lists
    && s'.rs == s.rs && s'.fs == s.fs && s'.lock == s.lock && s'.answers == s.answers
    && s'.tasks == if got.source.Created? then s.tasks[got.t := NEW_TASK] else s.tasks
  }

  lemma EndsIn(cfg: Config, s0: State, q: ReqId, tid: TId, got: TaskPools.Got, s: State, t: TId)
    requires Inv(cfg, s0) && Leads(cfg, s0, q, tid, s) && q in s0.reqs && s0.reqs[q].f in cfg.funs
             && s0.reqs[q].f in s.lists
    requires s == s0.(lists := s.lists, home := s.home, tasks := s.tasks).At(q, Holding(t)) && t == got.t
    requires s.tasks == if got.source.Created? then s0.tasks[got.t := NEW_TASK] else s0.tasks
    requires var f := s0.reqs[q].f; got.lists == s.lists[f := Adjust(s.lists[f], cfg.funs[f].concurrency, t, 1)]
    ensures exists s' :: Leads(cfg, s0, q, tid, s') && Ends(s0, s', q, got)
  {
    hide Inv; hide Leads; hide Adjust;
    var f := s0.reqs[q].f;
    JoinsList(cfg, s0, s, q, tid, t);
    var s' := s.(lists := s.lists[f := Adjust(s.lists[f], cfg.funs[f].concurrency, t, 1)], home := s.home[t := f]).At(q,
        Chosen(t));
    assert s'.reqs == s0.reqs[q := Req(f, Chosen(t))];
    assert Ends(s0, s', q, got);
  }

  lemma FirstStep(cfg: Config, s: State, q: ReqId, tid: TId)
    requires q in s.reqs && s.reqs[q].f in cfg.funs && s.reqs[q].f in s.lists && s.reqs[q].phase == Acquired
    ensures var f := s.reqs[q].f;
            var l, max := s.lists[f], cfg.funs[f].concurrency;
            if Cursor(l, max) < |l| then
              Leads(cfg, s, q, tid, s.(lists := s.lists[f := TakeOne(l, max)]).At(q, Chosen(l[Cursor(l, max)].t)))
            else Leads(cfg, s, q, tid, s.At(q, Scan(TaskPools.FList(s.fs, cfg.funs[f].r), None)))
  {
    hide Leads; hide Cursor; hide TakeOne;
    LeadsSelf(cfg, s, q, tid);
    LeadsOn(cfg, s, q, tid, s, TakeT(cfg, s, q));
    var f := s.reqs[q].f;
    if Cursor(s.lists[f], cfg.funs[f].concurrency) >= |s.lists[f]| {
      var a := s.At(q, NoSpare);
      var b := a.At(q, Scan(TaskPools.FList(s.fs, cfg.funs[f].r), None));
      LeadsOn(cfg, s, q, tid, a, b);
      assert b.reqs == s.reqs[q := Req(f, Scan(TaskPools.FList(s.fs, cfg.funs[f].r), None))];
    }
  }

  /** Where the own list and the own R have nothing, the other Rs are looked through, and then a
      task is created. */
  lemma BeyondR(cfg: Config, s: State, q: ReqId, tid: TId)
    requires q in s.reqs && s.reqs[q].f in cfg.funs && tid !in s.tasks
    requires Leads(cfg, s, q, tid, s.At(q, Scan([], None)))
    ensures var j := TaskPools.FirstR(s.lists, s.fs, s.rs, cfg.funs[s.reqs[q].f].r, 0);
            if j < |s.rs| then
              var fs := TaskPools.FList(s.fs, s.rs[j]);
              Leads(cfg, s, q, tid, InHand(s, q, fs[TaskPools.FirstIdle(s.lists, fs, None, 0)]))
            else Leads(cfg, s, q, tid, s.(tasks := s.tasks[tid := NEW_TASK]).At(q, Holding(tid)))
  {
    hide Leads; hide InHand; hide TaskPools.FirstR; hide TaskPools.FirstIdle;
    var a := s.At(q, Scan([], None));
    var b := s.At(q, Scan([], Some(s.rs)));
    assert a.reqs[q := Req(s.reqs[q].f, Scan([], Some(s.rs)))] == b.reqs;
    LeadsOn(cfg, s, q, tid, a, b);
    assert s.rs[0..] == s.rs;
    OtherRs(cfg, s, s, q, tid, s.rs, 0);
    if TaskPools.FirstR(s.lists, s.fs, s.rs, cfg.funs[s.reqs[q].f].r, 0) == |s.rs| {
      var c := s.At(q, Scan([], Some([])));
      var d := s.(tasks := s.tasks[tid := NEW_TASK]).At(q, Holding(tid));
      assert c.reqs[q := Req(s.reqs[q].f, Holding(tid))] == d.reqs;
      LeadsOn(cfg, s, q, tid, c, d);
    }
  }

  /** From having the lock to having chosen a task, the steps of a dispatch that no other thread
      comes between choose the task of GetTask and leave its lists. */
  lemma DispatchIsGetTask(cfg: Config, s: State, q: ReqId, tid: TId)
    requires cfg.Ok() && Reachable(cfg, s) && q in s.reqs && s.reqs[q].phase == Acquired && tid !in s.tasks
    ensures s.reqs[q].f in cfg.funs && s.reqs[q].f in s.lists
    ensures exists s' ::
              Leads(cfg, s, q, tid, s') && Ends(s, s', q, TaskPools.GetTask(cfg, s.lists, s.fs, s.rs, s.reqs[q].f, tid))
  {
    hide Inv; hide Reachable; hide Leads; hide Cursor; hide TakeOne; hide Adjust; hide TakeIdle; hide TaskPools.HasIdle;
    hide IdleAtBack;
    ReachableOk(cfg, s);
    KnownFun(cfg, s, q);
    var f := s.reqs[q].f;
    FunOf(cfg, s, f);
    var l, max, r := s.lists[f], cfg.funs[f].concurrency, cfg.funs[f].r;
    var got := TaskPools.GetTask(cfg, s.lists, s.fs, s.rs, f, tid);
    FirstStep(cfg, s, q, tid);
    if Cursor(l, max) < |l| {
      var s' := s.(lists := s.lists[f := TakeOne(l, max)]).At(q, Chosen(l[Cursor(l, max)].t));
      assert Ends(s, s', q, got);
    } else {
      NotOwn(cfg, s, q, tid);
    }
  }

  lemma NotOwn(cfg: Config, s: State, q: ReqId, tid: TId)
    requires Inv(cfg, s) && q in s.reqs && s.reqs[q].f in cfg.funs && s.reqs[q].f in s.lists && tid !in s.tasks
    requires var f := s.reqs[q].f; Cursor(s.lists[f], cfg.funs[f].concurrency) >= |s.lists[f]|
    requires Leads(cfg, s, q, tid, s.At(q, Scan(TaskPools.FList(s.fs, cfg.funs[s.reqs[q].f].r), None)))
    ensures exists s' ::
              Leads(cfg, s, q, tid, s') && Ends(s, s', q, TaskPools.GetTask(cfg, s.lists, s.fs, s.rs, s.reqs[q].f, tid))
  {
    hide Inv; hide Leads; hide Cursor; hide Adjust; hide TakeIdle; hide Ends; hide IdleAtBack;
    var f := s.reqs[q].f;
    var r := cfg.funs[f].r;
    var own := TaskPools.FList(s.fs, r);
    var got := TaskPools.GetTask(cfg, s.lists, s.fs, s.rs, f, tid);
    assert own[0..] == own;
    Probes(cfg, s, s, q, tid, own, 0, None);
    var v := TaskPools.Victim(s.lists, s.fs, s.rs, r, f);
    if TaskPools.FirstIdle(s.lists, own, Some(f), 0) == |own| {
      BeyondR(cfg, s, q, tid);
    }
    hide TaskPools.FirstIdle; hide TaskPools.FirstR; hide TaskPools.HasIdle;
    if v.Some? {
      assert Leads(cfg, s, q, tid, InHand(s, q, v.value));
      EndsIn(cfg, s, q, tid, got, InHand(s, q, v.value), got.t);
    } else {
      EndsIn(cfg, s, q, tid, got, s.(tasks := s.tasks[tid := NEW_TASK]).At(q, Holding(tid)), tid);
    }
  }
}
