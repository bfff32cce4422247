/** The steps of tasks and workers keep the scheduler's invariant. */
module SchedulerTaskSteps {
  import opened Pools
  import opened Scheduler
  import opened SchedulerInv
  import opened Sequences
  import opened Tasks
  import opened TListSpec
  import opened Wrappers

  /** Two states of a task keep request x in the same place. */
  ghost predicate SamePlace(k: Task, k': Task, x: ReqId) {
    && (x in k'.queue <==> x in k.queue)
    && (k'.pc == Pc.At(x) <==> k.pc == Pc.At(x))
    && (k'.pc == Giving(x) <==> k.pc == Giving(x))
    && (forall w :: WorksOn(k', w, x) <==> WorksOn(k, w, x))
    && (InDone(k', x) <==> InDone(k, x))
    && (x in k'.entries <==> x in k.entries)
  }

  lemma TaskMoved(cfg: Config, s: State, s': State, t: TId, q: ReqId)
    requires Moves(s, s', t, q) && TaskInv(cfg, s, t) && TaskOk(s'.tasks[t])
    requires forall x :: x != q ==> SamePlace(s.tasks[t], s'.tasks[t], x)
    requires Placed(s'.tasks[t], t, q, PhaseOn(s', q, t), Wasm(cfg, s', q))
    requires Listed(s', t) == Owed(s', t)
    requires s'.tasks[t].iCount != 0 || s'.tasks[t].pc != Ready ==>
             t in s'.home && s'.tasks[t].workFor == Some(s'.home[t])
    ensures TaskInv(cfg, s', t)
  {
    var k, k' := s.tasks[t], s'.tasks[t];
    forall x
      ensures Placed(k', t, x, PhaseOn(s', x, t), Wasm(cfg, s', x))
    {
      if x != q {
        assert Placed(k, t, x, PhaseOn(s, x, t), Wasm(cfg, s, x)) && SamePlace(k, k', x);
        MovedElsewhere(cfg, s, s', t, q, x);
      }
    }
  }

  lemma MovedElsewhere(cfg: Config, s: State, s': State, t: TId, q: ReqId, x: ReqId)
    requires Moves(s, s', t, q) && x != q && SamePlace(s.tasks[t], s'.tasks[t], x)
    requires Placed(s.tasks[t], t, x, PhaseOn(s, x, t), Wasm(cfg, s, x))
    ensures Placed(s'.tasks[t], t, x, PhaseOn(s', x, t), Wasm(cfg, s', x))
  {
    hide CountOf; hide InDone; hide WorksOn;
    assert PhaseOn(s', x, t) == PhaseOn(s, x, t) && Wasm(cfg, s', x) == Wasm(cfg, s, x);
    hide PhaseOn; hide Wasm; hide Moves;
  }

  /** A request that was counted but not pushed stops waiting, any other is not waited for. */
  lemma WaitingMoved(s: State, s': State, t: TId, q: ReqId)
    requires Moves(s, s', t, q) && !s'.reqs[q].phase.Reserved?
    ensures |Waiting(s', t)| == |Waiting(s, t)| - B(s.reqs[q].phase.Reserved?)
  {
    hide CountOf;
    assert Waiting(s', t) == Waiting(s, t) - {q};
  }

  lemma OwedMoved(s: State, s': State, t: TId, pushed: nat)
    requires t in s.tasks && t in s'.tasks && |Waiting(s', t)| == |Waiting(s, t)| - pushed
    requires var k, k' := s.tasks[t], s'.tasks[t];
             |k'.queue| + k'.iCount + B(k'.pc.Giving?) == |k.queue| + k.iCount + B(k.pc.Giving?) + pushed
    ensures Owed(s', t) == Owed(s, t)
  {
  }

  /** Task t becomes k and its request q moves to phase p. */
  ghost function Stepped(s: State, t: TId, k: Task, q: ReqId, p: Phase, answers: seq<Answer>): State
    requires q in s.reqs
  {
    s.(tasks := s.tasks[t := k], answers := answers).At(q, p)
  }

  lemma SteppedMoves(cfg: Config, s: State, t: TId, k': Task, q: ReqId, p: Phase, answers: seq<Answer>)
    requires t in s.tasks && q in s.reqs && OnlyOn(s.reqs[q].phase, t) && OnlyOn(p, t) && !p.Reserved?
    requires s.reqs[q].f in s.lists
    ensures var s' := Stepped(s, t, k', q, p, answers);
            && Moves(s, s', t, q) && s'.lists == s.lists && s'.home == s.home && s'.tasks[t] == k'
            && PhaseOn(s', q, t) == p && Wasm(cfg, s', q) == Wasm(cfg, s, q) && Listed(s', t) == Listed(s, t)
  {
    hide CountOf;
  }

  /** What a step within task t has to keep, said about the task alone. */
  lemma SteppedOk(cfg: Config, s: State, t: TId, k': Task, q: ReqId, p: Phase, answers: seq<Answer>)
    requires Inv(cfg, s) && t in s.tasks && q in s.reqs && OnlyOn(s.reqs[q].phase, t) && OnlyOn(p, t) && !p.Reserved?
    requires TaskOk(k') && Placed(k', t, q, p, Wasm(cfg, s, q))
    requires forall x :: x != q ==> SamePlace(s.tasks[t], k', x)
    requires |k'.queue| + k'.iCount + B(k'.pc.Giving?) ==
             |s.tasks[t].queue| + s.tasks[t].iCount + B(s.tasks[t].pc.Giving?) + B(s.reqs[q].phase.Reserved?)
    requires k'.iCount != 0 || k'.pc != Ready ==> t in s.home && k'.workFor == Some(s.home[t])
    requires AnswerInv(Stepped(s, t, k', q, p, answers))
    ensures Inv(cfg, Stepped(s, t, k', q, p, answers))
  {
    var s' := Stepped(s, t, k', q, p, answers);
    AtTask(cfg, s, t, q);
    assert TaskInv(cfg, s, t) && s.reqs[q].f in s.lists by {
      assert ListInv(cfg, s, s.reqs[q].f);
    }
    hide Inv; hide TaskOk; hide Placed; hide SamePlace; hide AnswerInv; hide Wasm;
    SteppedMoves(cfg, s, t, k', q, p, answers);
    WaitingMoved(s, s', t, q);
    OwedMoved(s, s', t, B(s.reqs[q].phase.Reserved?));
    hide *;
    TaskMoved(cfg, s, s', t, q);
    MovesOk(cfg, s, s', t, q);
  }

  /** What the invariant says about a request and the task it is with. */
  lemma AtTask(cfg: Config, s: State, t: TId, q: ReqId)
    requires Inv(cfg, s) && t in s.tasks && q in s.reqs && OnlyOn(s.reqs[q].phase, t)
    ensures TaskOk(s.tasks[t]) && Placed(s.tasks[t], t, q, s.reqs[q].phase, Wasm(cfg, s, q))
    ensures s.reqs[q].f in cfg.funs && t in s.home && s.home[t] == s.reqs[q].f && AnswerInv(s)
    ensures s.tasks[t].iCount != 0 || s.tasks[t].pc != Ready ==> s.tasks[t].workFor == Some(s.reqs[q].f)
  {
    assert ReqInv(cfg, s, q) && TaskInv(cfg, s, t);
    assert PhaseOn(s, q, t) == s.reqs[q].phase;
    hide *;
    assert Placed(s.tasks[t], t, q, PhaseOn(s, q, t), Wasm(cfg, s, q));
  }

  /** Where a task keeps a request tells the request's phase. */
  lemma PhaseAt(cfg: Config, s: State, t: TId, q: ReqId)
    requires Inv(cfg, s) && t in s.tasks
    ensures q in s.tasks[t].queue ==> q in s.reqs && s.reqs[q].phase == Queued(t)
    ensures s.tasks[t].pc == Pc.At(q) ==> q in s.reqs && s.reqs[q].phase == Entered(t)
    ensures s.tasks[t].pc == Giving(q) ==> q in s.reqs && s.reqs[q].phase == Answered(t)
    ensures InDone(s.tasks[t], q) ==> q in s.reqs && s.reqs[q].phase == Finished(t)
    ensures forall w :: WorksOn(s.tasks[t], w, q) ==> q in s.reqs && s.reqs[q].phase == InPool(t, w)
  {
    assert TaskInv(cfg, s, t);
    var p := PhaseOn(s, q, t);
    assert Placed(s.tasks[t], t, q, p, Wasm(cfg, s, q));
    hide *;
    assert p != Over ==> q in s.reqs && (s.reqs[q].phase == p || p == Reserved(t)) by {
      PhaseOnIs(s, q, t);
    }
    PlacedMeans(s.tasks[t], t, q, p, Wasm(cfg, s, q));
  }

  lemma PhaseOnIs(s: State, q: ReqId, t: TId)
    ensures PhaseOn(s, q, t) != Over ==>
              q in s.reqs && (s.reqs[q].phase == PhaseOn(s, q, t) || PhaseOn(s, q, t) == Reserved(t))
  {
  }

  lemma PlacedMeans(k: Task, t: TId, q: ReqId, p: Phase, wasm: bool)
    requires Placed(k, t, q, p, wasm)
    ensures q in k.queue ==> p == Queued(t)
    ensures k.pc == Pc.At(q) ==> p == Entered(t)
    ensures k.pc == Giving(q) ==> p == Answered(t)
    ensures InDone(k, q) ==> p == Finished(t)
    ensures forall w :: WorksOn(k, w, q) ==> p == InPool(t, w)
  {
  }

  /* Push. */

  lemma PushTask(k: Task, q: ReqId)
    requires TaskOk(k) && q !in k.queue
    ensures var k' := k.(queue := k.queue + [q]);
            TaskOk(k') && forall x :: x != q ==> SamePlace(k, k', x)
  {
    var k' := k.(queue := k.queue + [q]);
    hide Pool.Ok;
    forall x | x != q
      ensures SamePlace(k, k', x)
    {
      assert forall w :: WorksOn(k', w, x) <==> WorksOn(k, w, x);
    }
  }

  lemma PushPlaced(k: Task, t: TId, q: ReqId, wasm: bool)
    requires Placed(k, t, q, Reserved(t), wasm)
    ensures q !in k.queue && Placed(k.(queue := k.queue + [q]), t, q, Queued(t), wasm)
  {
    var k' := k.(queue := k.queue + [q]);
    assert forall w :: WorksOn(k', w, q) <==> WorksOn(k, w, q);
  }

  lemma PushOk(cfg: Config, s: State, q: ReqId, t: TId)
    requires Inv(cfg, s) && q in s.reqs && s.reqs[q].phase == Reserved(t) && t in s.tasks
    ensures Inv(cfg, PushQ(s, q, t))
  {
    hide Inv; hide TaskOk; hide Placed; hide SamePlace; hide Wasm; hide AnswerInv;
    var k := s.tasks[t];
    var k' := k.(queue := k.queue + [q]);
    AtTask(cfg, s, t, q);
    PushPlaced(k, t, q, Wasm(cfg, s, q));
    PushTask(k, q);
    NoAnswer(s, PushQ(s, q, t), q);
    SteppedOk(cfg, s, t, k', q, Queued(t), s.answers);
  }

  /* Pop. */

  lemma SamePlaces(k: Task, k': Task)
    requires k'.queue == k.queue && k'.pc == k.pc && k'.entries == k.entries && k'.pool.done == k.pool.done
    requires k'.pool.busy == k.pool.busy && forall w <- k.pool.busy :: k'.pool.Request(w) == k.pool.Request(w)
    ensures forall x :: SamePlace(k, k', x)
  {
    forall x
      ensures SamePlace(k, k', x)
    {
      assert forall w :: WorksOn(k', w, x) <==> WorksOn(k, w, x);
    }
  }

  /** A task between two requests turns to f if it owes only requests of f; at worst its pool
      is not fully populated. */
  lemma ServeTask(cfg: Config, k: Task, f: FId)
    requires cfg.Ok() && f in cfg.funs && TaskOk(k) && k.pc == Ready
    requires k.iCount != 0 ==> k.workFor == Some(f)
    ensures match Serve(cfg, k, f)
            case Refused(c) => c == ResizePartial
            case Next(k') => TaskOk(k') && k'.workFor == Some(f) && k'.iCount == k.iCount && k'.queue == k.queue
                             && k'.pc == k.pc && k'.entries == k.entries && forall x :: SamePlace(k, k', x)
  {
    if k.iCount == 0 {
      assert k.pool.busy == {} && k.pool.done == [];
    }
    if k.pool.CanResize() {
      ResizeOk(k.pool, cfg.funs[f].concurrency);
    }
    hide Pool.Ok; hide Pool.Resize; hide SamePlace;
    match Serve(cfg, k, f)
    case Refused(c) =>
    case Next(k') =>
      SamePlaces(k, k');
  }

  lemma PopTask(k: Task, q: ReqId, wasm: bool)
    requires TaskOk(k) && k.queue != [] && q == k.queue[0] && k.pc == Ready
    ensures var k' := k.(queue := k.queue[1..], iCount := k.iCount + 1, pc := Pc.At(q),
                         entries := if wasm then k.entries + {q} else k.entries);
            TaskOk(k') && forall x :: x != q ==> SamePlace(k, k', x)
  {
    var k' := k.(queue := k.queue[1..], iCount := k.iCount + 1, pc := Pc.At(q),
                 entries := if wasm then k.entries + {q} else k.entries);
    hide Pool.Ok;
    assert k.queue == [q] + k'.queue;
    forall x | x != q
      ensures SamePlace(k, k', x)
    {
      assert forall w :: WorksOn(k', w, x) <==> WorksOn(k, w, x);
    }
  }

  lemma PopPlaced(k: Task, t: TId, q: ReqId, wasm: bool)
    requires Placed(k, t, q, Queued(t), wasm) && Distinct(k.queue) && k.queue != [] && q == k.queue[0] && k.pc == Ready
    ensures Placed(k.(queue := k.queue[1..], iCount := k.iCount + 1, pc := Pc.At(q),
                   entries := if wasm then k.entries + {q} else k.entries), t, q, Entered(t), wasm)
  {
    var k' := k.(queue := k.queue[1..], iCount := k.iCount + 1, pc := Pc.At(q),
                 entries := if wasm then k.entries + {q} else k.entries);
    assert forall w :: WorksOn(k', w, q) <==> WorksOn(k, w, q);
  }

  lemma PopOk(cfg: Config, s: State, t: TId)
    requires Inv(cfg, s) && t in s.tasks
    ensures match DoPop(cfg, s, t)
            case Disabled => s.tasks[t].pc != Ready || s.tasks[t].queue == []
            case To(s') => Inv(cfg, s')
            case Crashes(c) => c == ResizePartial
  {
    hide TaskOk; hide Placed; hide SamePlace; hide Wasm; hide AnswerInv; hide AllTasks; hide AllReqs; hide AllLists;
    hide Homes;
    var k := s.tasks[t];
    if k.pc == Ready && k.queue != [] {
      var q := k.queue[0];
      PhaseAt(cfg, s, t, q);
      var f := s.reqs[q].f;
      AtTask(cfg, s, t, q);
      assert cfg.funs[f].concurrency >= 1;
      hide Inv; hide Config.Ok;
      PopServed(cfg, s, t, q);
    }
  }

  lemma PopServed(cfg: Config, s: State, t: TId, q: ReqId)
    requires Inv(cfg, s) && t in s.tasks && s.tasks[t].pc == Ready && s.tasks[t].queue != [] && q == s.tasks[t].queue[0]
    requires q in s.reqs && s.reqs[q].phase == Queued(t) && s.reqs[q].f in cfg.funs
             && cfg.funs[s.reqs[q].f].concurrency >= 0
    ensures match PopRequest(cfg, s.tasks[t], s.reqs[q].f)
            case Refused(c) => c == ResizePartial
            case Next(k') => Inv(cfg, s.(tasks := s.tasks[t := k']).At(q, Entered(t)))
  {
    hide TaskOk; hide Placed; hide SamePlace; hide Wasm; hide Inv; hide Serve; hide AnswerInv;
    var k, f := s.tasks[t], s.reqs[q].f;
    AtTask(cfg, s, t, q);
    InvOk(cfg, s);
    WasmIs(cfg, s, q);
    ServeTask(cfg, k, f);
    match PopRequest(cfg, k, f)
    case Refused(c) =>
    case Next(k') =>
      var k1 := Serve(cfg, k, f).task;
      PopTask(k1, q, Wasm(cfg, s, q));
      ServedPlaced(k, k1, t, q, Queued(t), Wasm(cfg, s, q));
      DistinctQueue(k1);
      PopPlaced(k1, t, q, Wasm(cfg, s, q));
      NoAnswer(s, s.(tasks := s.tasks[t := k']).At(q, Entered(t)), q);
      PopSame(k, k1, k', q);
      SteppedOk(cfg, s, t, k', q, Entered(t), s.answers);
  }

  lemma WasmIs(cfg: Config, s: State, q: ReqId)
    requires q in s.reqs && s.reqs[q].f in cfg.funs
    ensures Wasm(cfg, s, q) == cfg.funs[s.reqs[q].f].wasm
  {
  }

  lemma InvOk(cfg: Config, s: State)
    requires Inv(cfg, s)
    ensures cfg.Ok() && AnswerInv(s)
  {
  }

  lemma DistinctQueue(k: Task)
    requires TaskOk(k)
    ensures Distinct(k.queue)
  {
  }

  lemma ServedPlaced(k: Task, k': Task, t: TId, q: ReqId, p: Phase, wasm: bool)
    requires Placed(k, t, q, p, wasm) && SamePlace(k, k', q)
    ensures Placed(k', t, q, p, wasm)
  {
    hide InDone; hide WorksOn;
  }

  lemma PopSame(k: Task, k1: Task, k': Task, q: ReqId)
    requires forall x :: SamePlace(k, k1, x)
    requires forall x :: x != q ==> SamePlace(k1, k', x)
    ensures forall x :: x != q ==> SamePlace(k, k', x)
  {
    hide InDone; hide WorksOn;
    forall x | x != q
      ensures SamePlace(k, k', x)
    {
      assert SamePlace(k, k1, x) && SamePlace(k1, k', x);
    }
  }

  /* Invoke a worker. */

  lemma InvokeTask(k: Task, q: ReqId, created: WId)
    requires TaskOk(k) && k.pc == Pc.At(q) && k.pool.CanInvoke() && (k.pool.idle == [] ==> created !in k.pool.workers)
    ensures var k' := k.(pc := Ready, pool := k.pool.Invoke(created, q));
            && TaskOk(k') && k'.pool.done == k.pool.done
            && (forall w, x :: WorksOn(k', w, x) <==> WorksOn(k, w, x) || (w == k.pool.Chosen(created) && x == q))
  {
    InvokeOk(k.pool, created, q);
    hide Pool.Ok; hide Pool.Request;
    assert k.pool.Invoke(created, q).done == k.pool.done;
    hide Pool.Invoke;
  }

  lemma InvokeSame(k: Task, k': Task, q: ReqId, w: WId)
    requires k'.queue == k.queue && k'.entries == k.entries && k'.pool.done == k.pool.done && k.pc == Pc.At(q)
             && k'.pc == Ready
    requires forall v, x :: WorksOn(k', v, x) <==> WorksOn(k, v, x) || (v == w && x == q)
    ensures forall x :: x != q ==> SamePlace(k, k', x)
  {
  }

  lemma InvokePlaced(k: Task, k': Task, t: TId, q: ReqId, w: WId)
    requires Placed(k, t, q, Entered(t), true)
    requires k'.queue == k.queue && k'.entries == k.entries && k'.pool.done == k.pool.done && k.pc == Pc.At(q)
             && k'.pc == Ready
    requires forall v, x :: WorksOn(k', v, x) <==> WorksOn(k, v, x) || (v == w && x == q)
    ensures Placed(k', t, q, InPool(t, w), true)
  {
    hide WorksOn;
  }

  lemma InvokeWOk(cfg: Config, s: State, t: TId, created: WId)
    requires Inv(cfg, s) && t in s.tasks
    ensures match DoInvoke(cfg, s, t, created)
            case Disabled => true
            case To(s') => Inv(cfg, s')
            case Crashes(c) => c == NoIdleWorker
  {
    hide TaskOk; hide Placed; hide SamePlace; hide Inv; hide AnswerInv; hide Pool.Invoke; hide Pool.CanInvoke;
    hide WorksOn;
    var k := s.tasks[t];
    if AtWasm(cfg, s, k, true) && (k.pool.idle == [] ==> created !in k.pool.workers) && k.pool.CanInvoke() {
      var q := k.pc.q;
      var k' := k.(pc := Ready, pool := k.pool.Invoke(created, q));
      var w := k.pool.Chosen(created);
      PhaseAt(cfg, s, t, q);
      AtTask(cfg, s, t, q);
      WasmIs(cfg, s, q);
      hide Wasm;
      InvokeTask(k, q, created);
      InvokeSame(k, k', q, w);
      InvokePlaced(k, k', t, q, w);
      hide Pool.Chosen;
      NoAnswer(s, s.(tasks := s.tasks[t := k']).At(q, InPool(t, w)), q);
      SteppedOk(cfg, s, t, k', q, InPool(t, w), s.answers);
    }
  }

  /* Execute. */

  lemma ExecuteTask(k: Task, t: TId, q: ReqId)
    requires TaskOk(k) && k.pc == Pc.At(q) && Placed(k, t, q, Entered(t), false)
    ensures var k' := EndRequest(k, q);
            TaskOk(k') && (forall x :: x != q ==> SamePlace(k, k', x)) && Placed(k', t, q, Answered(t), false)
  {
    var k' := EndRequest(k, q);
    hide Pool.Ok;
    forall x
      ensures (forall w :: WorksOn(k', w, x) <==> WorksOn(k, w, x)) && (InDone(k', x) <==> InDone(k, x))
    {
    }
    hide WorksOn; hide InDone;
  }

  lemma ExecuteOk(cfg: Config, s: State, t: TId, status: Status)
    requires Inv(cfg, s) && t in s.tasks
    ensures match DoExecute(cfg, s, t, status)
            case Disabled => true
            case To(s') => Inv(cfg, s')
            case Crashes(c) => false
  {
    hide TaskOk; hide Placed; hide SamePlace; hide Inv; hide AnswerInv;
    var k := s.tasks[t];
    if AtWasm(cfg, s, k, false) {
      var q := k.pc.q;
      PhaseAt(cfg, s, t, q);
      AtTask(cfg, s, t, q);
      WasmIs(cfg, s, q);
      hide Wasm;
      ExecuteTask(k, t, q);
      var answers := s.answers + [Answer(q, status)];
      OneAnswer(s, Stepped(s, t, EndRequest(k, q), q, Answered(t), answers), q, status);
      SteppedOk(cfg, s, t, EndRequest(k, q), q, Answered(t), answers);
    }
  }

  /* Workers. */

  lemma StartTask(k: Task, w: WId)
    requires TaskOk(k) && k.pool.CanStart(w)
    ensures var k' := k.(pool := k.pool.Start(w));
            TaskOk(k') && (forall x :: SamePlace(k, k', x)) && WorksOn(k, w, k.pool.Request(w))
  {
    StartOk(k.pool, w);
    hide Pool.Ok; hide Pool.Request;
    SamePlaces(k, k.(pool := k.pool.Start(w)));
  }

  lemma StartWOk(cfg: Config, s: State, t: TId, w: WId)
    requires Inv(cfg, s) && t in s.tasks
    ensures match DoStart(s, t, w)
            case Disabled => !s.tasks[t].pool.CanStart(w)
            case To(s') => Inv(cfg, s')
            case Crashes(c) => false
  {
    hide TaskOk; hide Placed; hide SamePlace; hide Inv; hide AnswerInv; hide Wasm; hide Pool.Request; hide WorksOn;
    hide Pool.CanStart; hide Pool.Start;
    var k := s.tasks[t];
    if k.pool.CanStart(w) {
      var k' := k.(pool := k.pool.Start(w));
      assert k'.pool.busy == k.pool.busy && k'.pool.done == k.pool.done by { StartFrame(k.pool, w); }
      assert TaskOk(k) by { TaskIsOk(cfg, s, t); }
      StartTask(k, w);
      var q := k.pool.Request(w);
      PhaseAt(cfg, s, t, q);
      AtTask(cfg, s, t, q);
      ServedPlaced(k, k', t, q, InPool(t, w), Wasm(cfg, s, q));
      NoAnswer(s, s.(tasks := s.tasks[t := k']).At(q, InPool(t, w)), q);
      SteppedOk(cfg, s, t, k', q, InPool(t, w), s.answers);
      assert s.reqs[q := s.reqs[q].(phase := InPool(t, w))] == s.reqs;
    }
  }

  lemma StartFrame(p: Pool, w: WId)
    requires p.CanStart(w)
    ensures p.Start(w).busy == p.busy && p.Start(w).done == p.done
  {
  }

  lemma TaskIsOk(cfg: Config, s: State, t: TId)
    requires Inv(cfg, s) && t in s.tasks
    ensures TaskOk(s.tasks[t])
    ensures s.tasks[t].iCount != 0 || s.tasks[t].pc != Ready ==> t in s.home && s.tasks[t].workFor == Some(s.home[t])
  {
    assert TaskInv(cfg, s, t);
  }

  lemma FinishTask(k: Task, t: TId, w: WId, q: ReqId, status: Status, wasm: bool)
    requires TaskOk(k) && k.pool.CanFinish(w) && q == k.pool.Request(w) && Placed(k, t, q, InPool(t, w), wasm)
    ensures var k' := k.(pool := k.pool.Finish(w, status));
            && TaskOk(k') && k'.pool.done == k.pool.done + [Done(q, status)]
            && (forall v, x :: WorksOn(k', v, x) <==> WorksOn(k, v, x) && v != w)
  {
    var k' := k.(pool := k.pool.Finish(w, status));
    FinishOk(k.pool, w, status);
    hide Pool.Ok; hide Pool.Request;
    assert !InDone(k, q);
    assert k'.pool.busy == k.pool.busy - {w};
    hide Pool.Finish;
  }

  lemma FinishPlaced(k: Task, k': Task, t: TId, w: WId, q: ReqId, status: Status, wasm: bool)
    requires Placed(k, t, q, InPool(t, w), wasm)
    requires k'.queue == k.queue && k'.pc == k.pc && k'.entries == k.entries
             && k'.pool.done == k.pool.done + [Done(q, status)]
    requires forall v, x :: WorksOn(k', v, x) <==> WorksOn(k, v, x) && v != w
    ensures Placed(k', t, q, Finished(t), wasm)
  {
    hide WorksOn;
    assert k'.pool.done[|k.pool.done|].q == q;
  }

  lemma FinishSame(k: Task, k': Task, w: WId, q: ReqId, status: Status)
    requires WorksOn(k, w, q)
    requires k'.queue == k.queue && k'.pc == k.pc && k'.entries == k.entries
             && k'.pool.done == k.pool.done + [Done(q, status)]
    requires forall v, x :: WorksOn(k', v, x) <==> WorksOn(k, v, x) && v != w
    ensures forall x :: x != q ==> SamePlace(k, k', x)
  {
    forall x | x != q
      ensures SamePlace(k, k', x)
    {
      assert forall v :: WorksOn(k, v, x) ==> v != w;
      hide WorksOn;
      if InDone(k, x) {
        var i :| 0 <= i < |k.pool.done| && k.pool.done[i].q == x;
        assert k'.pool.done[i].q == x;
      }
    }
  }

  lemma FinishWOk(cfg: Config, s: State, t: TId, w: WId, status: Status)
    requires Inv(cfg, s) && t in s.tasks
    ensures match DoFinish(s, t, w, status)
            case Disabled => !s.tasks[t].pool.CanFinish(w)
            case To(s') => Inv(cfg, s')
            case Crashes(c) => false
  {
    hide TaskOk; hide Placed; hide SamePlace; hide Inv; hide AnswerInv; hide Wasm; hide WorksOn; hide Pool.Finish;
    hide Pool.Request;
    var k := s.tasks[t];
    if k.pool.CanFinish(w) {
      var q := k.pool.workers[w].running.value;
      var k' := k.(pool := k.pool.Finish(w, status));
      TaskIsOk(cfg, s, t);
      FinishWorksOn(k, w, q);
      PhaseAt(cfg, s, t, q);
      AtTask(cfg, s, t, q);
      hide Pool.CanFinish;
      FinishTask(k, t, w, q, status, Wasm(cfg, s, q));
      FinishPlaced(k, k', t, w, q, status, Wasm(cfg, s, q));
      FinishSame(k, k', w, q, status);
      NoAnswer(s, s.(tasks := s.tasks[t := k']).At(q, Finished(t)), q);
      SteppedOk(cfg, s, t, k', q, Finished(t), s.answers);
    }
  }

  lemma FinishWorksOn(k: Task, w: WId, q: ReqId)
    requires TaskOk(k) && k.pool.CanFinish(w) && q == k.pool.workers[w].running.value
    ensures WorksOn(k, w, q) && k.pool.Request(w) == q
  {
  }

  /* Collect. */

  lemma CollectTask(k: Task, t: TId, q: ReqId, wasm: bool)
    requires TaskOk(k) && k.pc == Ready && k.pool.done != [] && q == k.pool.done[0].q
             && Placed(k, t, q, Finished(t), wasm)
    ensures match PopDone(k)
            case Refused(c) => false
            case Next(k') =>
              && TaskOk(k') && Placed(k', t, q, Answered(t), wasm) && (forall x :: x != q ==> SamePlace(k, k', x))
              && k'.queue == k.queue && k'.iCount == k.iCount - 1 && k'.pc == Giving(q) && k'.workFor == k.workFor
  {
    hide Pool.Ok;
    var k' := PopDone(k).task;
    assert k.pool.done == [k.pool.done[0]] + k'.pool.done;
    assert k'.pool.Ok() by { DoneOk(k.pool, k'.pool.done); }
    forall x | x != q
      ensures InDone(k', x) <==> InDone(k, x)
    {
      if InDone(k, x) {
        var i :| 0 <= i < |k.pool.done| && k.pool.done[i].q == x;
        assert k'.pool.done[i - 1].q == x;
      }
    }
    assert !InDone(k', q);
    assert forall w, x :: WorksOn(k', w, x) <==> WorksOn(k, w, x);
    hide WorksOn; hide InDone;
  }

  lemma DoneOk(p: Pool, done: seq<Done>)
    requires p.Ok()
    ensures p.(done := done).Ok()
  {
  }

  lemma CollectOk(cfg: Config, s: State, t: TId)
    requires Inv(cfg, s) && t in s.tasks
    ensures match DoCollect(s, t)
            case Disabled => s.tasks[t].pc != Ready || s.tasks[t].pool.done == []
            case To(s') => Inv(cfg, s')
            case Crashes(c) => false
  {
    hide TaskOk; hide Placed; hide SamePlace; hide Inv; hide AnswerInv; hide Wasm; hide PopDone;
    var k := s.tasks[t];
    if k.pc == Ready && k.pool.done != [] {
      var d := k.pool.done[0];
      var q := d.q;
      assert InDone(k, q);
      PhaseAt(cfg, s, t, q);
      AtTask(cfg, s, t, q);
      CollectTask(k, t, q, Wasm(cfg, s, q));
      var k' := PopDone(k).task;
      var answers := s.answers + [Answer(q, d.status)];
      OneAnswer(s, Stepped(s, t, k', q, Answered(t), answers), q, d.status);
      CollectCounts(k);
      SteppedOk(cfg, s, t, k', q, Answered(t), answers);
    }
  }

  lemma CollectCounts(k: Task)
    requires TaskOk(k) && k.pool.done != []
    ensures k.iCount != 0
  {
  }

  /* Return. */

  lemma ReturnList(cfg: Config, s: State, s': State, f: FId, t: TId)
    requires f in cfg.funs && ListInv(cfg, s, f) && f in s'.lists && s'.home == s.home
    requires CountOf(s.lists[f], t) > 0 && s'.lists[f] == ReturnOne(s.lists[f], cfg.funs[f].concurrency, t)
    ensures ListInv(cfg, s', f) && Changed(s.lists[f], s'.lists[f], t, CountOf(s.lists[f], t) - 1)
  {
    var max := cfg.funs[f].concurrency;
    ReturnOneMeaning(s.lists[f], max, t);
    hide ReturnOne; hide Ok; hide CountOf; hide Has;
    forall u
      ensures Has(s'.lists[f], u) <==> Has(s.lists[f], u)
    {
      HasIsCounted(s.lists[f], max, u);
      HasIsCounted(s'.lists[f], max, u);
    }
  }

  ghost function Returned(cfg: Config, s: State, t: TId, q: ReqId): State
    requires t in s.tasks && q in s.reqs && s.reqs[q].f in s.lists && s.reqs[q].f in cfg.funs
             && Has(s.lists[s.reqs[q].f], t)
  {
    var f := s.reqs[q].f;
    s.(lists := s.lists[f := ReturnOne(s.lists[f], cfg.funs[f].concurrency, t)],
       tasks := s.tasks[t := s.tasks[t].(pc := Ready)]).At(q, Over)
  }

  lemma ReturnTask(k: Task, t: TId, q: ReqId, wasm: bool)
    requires TaskOk(k) && k.pc == Giving(q) && Placed(k, t, q, Answered(t), wasm)
    ensures var k' := k.(pc := Ready);
            TaskOk(k') && Placed(k', t, q, Over, wasm) && forall x :: x != q ==> SamePlace(k, k', x)
  {
    var k' := k.(pc := Ready);
    hide Pool.Ok;
    assert forall w, x :: WorksOn(k', w, x) <==> WorksOn(k, w, x);
    hide WorksOn;
    assert forall x :: InDone(k', x) <==> InDone(k, x);
    hide InDone;
  }

  lemma ReturnMoves(cfg: Config, s: State, t: TId, q: ReqId)
    requires t in s.tasks && q in s.reqs && s.reqs[q].phase == Answered(t)
    requires s.reqs[q].f in s.lists && s.reqs[q].f in cfg.funs && Has(s.lists[s.reqs[q].f], t)
    requires Changed(s.lists[s.reqs[q].f], Returned(cfg, s, t, q).lists[s.reqs[q].f], t,
                     CountOf(s.lists[s.reqs[q].f], t) - 1)
    ensures Moves(s, Returned(cfg, s, t, q), t, q) && PhaseOn(Returned(cfg, s, t, q), q, t) == Over
    ensures Wasm(cfg, Returned(cfg, s, t, q), q) == Wasm(cfg, s, q)
  {
    hide CountOf; hide Has; hide ReturnOne;
  }

  /** A task owes at least the request it is about to give back. */
  lemma GivingListed(cfg: Config, s: State, t: TId, q: ReqId)
    requires Inv(cfg, s) && t in s.tasks && s.tasks[t].pc == Giving(q) && t in s.home && s.home[t] in cfg.funs
    ensures s.home[t] in s.lists && ListInv(cfg, s, s.home[t]) && CountOf(s.lists[s.home[t]], t) == Owed(s, t) >= 1
    ensures Has(s.lists[s.home[t]], t)
  {
    assert ListInv(cfg, s, s.home[t]) && TaskInv(cfg, s, t);
    hide AllTasks; hide AllReqs; hide AllLists; hide Homes; hide AnswerInv; hide Placed;
    hide CountOf; hide Ok; hide Has;
  }

  lemma ReturnedOk(cfg: Config, s: State, t: TId, q: ReqId)
    requires Inv(cfg, s) && t in s.tasks && s.tasks[t].pc == Giving(q)
    requires q in s.reqs && s.reqs[q].phase == Answered(t) && s.reqs[q].f in s.lists && s.reqs[q].f in cfg.funs
    requires t in s.home && s.home[t] == s.reqs[q].f && Has(s.lists[s.home[t]], t)
    ensures Inv(cfg, Returned(cfg, s, t, q))
  {
    hide TaskOk; hide Placed; hide SamePlace; hide Inv; hide AnswerInv; hide Wasm; hide ListInv; hide Has; hide CountOf;
    hide ReturnOne; hide Changed;
    var f := s.reqs[q].f;
    var s' := Returned(cfg, s, t, q);
    AtTask(cfg, s, t, q);
    GivingListed(cfg, s, t, q);
    ReturnList(cfg, s, s', f, t);
    ReturnMoves(cfg, s, t, q);
    ReturnTask(s.tasks[t], t, q, Wasm(cfg, s, q));
    NoAnswer(s, s', q);
    WaitingMoved(s, s', t, q);
    ReturnCounts(s, s', t, f);
    hide Returned; hide Moves; hide PhaseOn; hide Waiting; hide Listed; hide Owed;
    InvParts(cfg, s, t);
    TaskMoved(cfg, s, s', t, q);
    MovesTasks(cfg, s, s', t, q);
    MovesReqs(cfg, s, s', t, q);
    MovesLists(cfg, s, s', t, q);
    FromParts(cfg, s');
  }

  lemma ReturnCounts(s: State, s': State, t: TId, f: FId)
    requires t in s.tasks && t in s'.tasks && s.tasks[t].pc.Giving? && s'.tasks[t] == s.tasks[t].(pc := Ready)
    requires |Waiting(s', t)| == |Waiting(s, t)| && s'.home == s.home && t in s.home && s.home[t] == f && f in s.lists
             && f in s'.lists
    requires CountOf(s.lists[f], t) == Owed(s, t) && Changed(s.lists[f], s'.lists[f], t, CountOf(s.lists[f], t) - 1)
    ensures Listed(s', t) == Owed(s', t)
  {
    hide CountOf;
  }

  lemma InvParts(cfg: Config, s: State, t: TId)
    requires Inv(cfg, s) && t in s.tasks
    ensures cfg.Ok() && AllLists(cfg, s) && AllTasks(cfg, s) && AllReqs(cfg, s) && Homes(cfg, s) && AnswerInv(s)
            && TaskInv(cfg, s, t)
  {
    hide AllLists; hide AllReqs; hide Homes; hide AnswerInv; hide TaskInv;
  }

  lemma FromParts(cfg: Config, s: State)
    requires cfg.Ok() && AllLists(cfg, s) && AllTasks(cfg, s) && AllReqs(cfg, s) && Homes(cfg, s) && AnswerInv(s)
    ensures Inv(cfg, s)
  {
    hide AllLists; hide AllReqs; hide Homes; hide AnswerInv; hide AllTasks;
  }

  lemma ReturnOk(cfg: Config, s: State, t: TId)
    requires Inv(cfg, s) && t in s.tasks
    ensures match DoReturn(cfg, s, t)
            case Disabled => !s.tasks[t].pc.Giving?
            case To(s') => Inv(cfg, s')
            case Crashes(c) => false
  {
    hide TaskOk; hide Placed; hide SamePlace; hide Inv; hide AnswerInv; hide Wasm; hide ListInv; hide Has; hide CountOf;
    hide ReturnOne; hide Changed;
    var k := s.tasks[t];
    if k.pc.Giving? {
      var q := k.pc.q;
      PhaseAt(cfg, s, t, q);
      AtTask(cfg, s, t, q);
      GivingListed(cfg, s, t, q);
      ReturnedOk(cfg, s, t, q);
    }
  }
}
