/** The steps in which a dispatching thread takes a task in hand keep the scheduler's invariant. */
module SchedulerHandSteps {
  import opened Pools
  import opened Scheduler
  import opened SchedulerInv
  import opened SchedulerTaskSteps
  import opened Tasks
  import opened TListSpec
  import opened Wrappers

  /** The holder q of the dispatch lock changes which list task t is in, or its count there. */
  ghost predicate Hands(s: State, s': State, t: TId, q: ReqId) {
    && s' == s.(lists := s'.lists, home := s'.home, tasks := s'.tasks, reqs := s'.reqs)
    && q in s.reqs && q in s'.reqs && s'.reqs == s.reqs[q := s'.reqs[q]] && s'.reqs[q].f == s.reqs[q].f
    && s.lock == Some(q) && s.reqs[q].phase.Locks() && s'.reqs[q].phase.Locks()
    && !s.reqs[q].phase.Chosen? && (s.reqs[q].phase.Holding? ==> s.reqs[q].phase.t == t)
    && s'.reqs[q].phase in {Holding(t), Chosen(t)}
    && t in s'.tasks && (forall u <- s.tasks :: u in s'.tasks && (u != t ==> s'.tasks[u] == s.tasks[u]))
    && (forall u <- s'.tasks :: u != t ==> u in s.tasks)
    && (forall u :: u != t ==> (u in s'.home <==> u in s.home) && (u in s.home ==> s'.home[u] == s.home[u]))
    && (forall u :: u != t ==> Listed(s', u) == Listed(s, u))
  }

  lemma HandsOther(cfg: Config, s: State, s': State, t: TId, q: ReqId, u: TId)
    requires Hands(s, s', t, q) && u in s.tasks && u != t && TaskInv(cfg, s, u)
    ensures TaskInv(cfg, s', u)
  {
    hide TaskInv; hide Listed;
    forall x
      ensures PhaseOn(s', x, u) == PhaseOn(s, x, u)
              && (PhaseOn(s, x, u).Entered? ==> Wasm(cfg, s', x) == Wasm(cfg, s, x))
    {
    }
    hide PhaseOn; hide Wasm;
    TaskFrame(cfg, s, s', u);
  }

  lemma HandsTasks(cfg: Config, s: State, s': State, t: TId, q: ReqId)
    requires Hands(s, s', t, q) && AllTasks(cfg, s) && TaskInv(cfg, s', t)
    ensures AllTasks(cfg, s')
  {
    forall u | u in s'.tasks
      ensures TaskInv(cfg, s', u)
    {
      if u != t {
        assert u in s.tasks && TaskInv(cfg, s, u);
        hide TaskInv; hide Listed;
        HandsOther(cfg, s, s', t, q, u);
      }
    }
  }

  lemma HandsReqs(cfg: Config, s: State, s': State, t: TId, q: ReqId)
    requires Hands(s, s', t, q) && AllReqs(cfg, s)
    requires s'.reqs[q].phase.Chosen? ==> t in s'.home && s'.home[t] == s'.reqs[q].f
    requires s'.reqs[q].phase.Holding? ==> t !in s'.home
    requires forall x :: PhaseOn(s, x, t) != Over ==> t in s.home && t in s'.home && s'.home[t] == s.home[t]
    ensures AllReqs(cfg, s')
  {
    hide Listed;
    forall x | x in s'.reqs
      ensures ReqInv(cfg, s', x)
    {
      assert ReqInv(cfg, s, q) && ReqInv(cfg, s, x);
      if x != q && s.reqs[x].phase.OnTask() && s.reqs[x].phase.t == t {
        assert PhaseOn(s, x, t) != Over;
      }
    }
  }

  lemma HandsHomes(cfg: Config, s: State, s': State, t: TId, q: ReqId)
    requires Hands(s, s', t, q) && Homes(cfg, s)
    requires t in s'.home ==> s'.home[t] in cfg.funs
    requires t in s'.home || s'.reqs[q].phase == Holding(t)
    ensures Homes(cfg, s')
  {
    hide Listed;
    forall u | u in s'.tasks && u !in s'.home
      ensures Held(s', u)
    {
      assert u == t || Held(s, u);
    }
  }

  lemma HandsAnswers(s: State, s': State, t: TId, q: ReqId)
    requires Hands(s, s', t, q) && AnswerInv(s)
    ensures AnswerInv(s')
  {
    NoAnswer(s, s', q);
  }

  /** The lists of all functions are in order if the one that changes is. */
  lemma HandsLists(cfg: Config, s: State, s': State, t: TId, f: FId)
    requires AllLists(cfg, s) && s'.lists.Keys == s.lists.Keys
    requires forall u :: u != t ==> (u in s'.home <==> u in s.home) && (u in s.home ==> s'.home[u] == s.home[u])
    requires forall g <- s.lists :: g != f ==> s'.lists[g] == s.lists[g]
    requires f in cfg.funs ==> ListInv(cfg, s', f)
    requires t in s.home ==> s.home[t] == f
    requires t in s'.home ==> s'.home[t] == f
    ensures AllLists(cfg, s')
  {
    forall g | g in cfg.funs
      ensures ListInv(cfg, s', g)
    {
      if g != f {
        assert ListInv(cfg, s, g);
        hide Ok; hide Has;
        forall u
          ensures Has(s'.lists[g], u) <==> u in s'.home && s'.home[u] == g
        {
          assert Has(s.lists[g], u) <==> u in s.home && s.home[u] == g;
        }
      }
    }
  }

  lemma HandsOk(cfg: Config, s: State, s': State, t: TId, q: ReqId, f: FId)
    requires Inv(cfg, s) && Hands(s, s', t, q) && TaskInv(cfg, s', t)
    requires s'.reqs[q].phase.Chosen? ==> t in s'.home && s'.home[t] == s'.reqs[q].f
    requires s'.reqs[q].phase.Holding? ==> t !in s'.home
    requires forall x :: PhaseOn(s, x, t) != Over ==> t in s.home && t in s'.home && s'.home[t] == s.home[t]
    requires s'.lists.Keys == s.lists.Keys && forall g <- s.lists :: g != f ==> s'.lists[g] == s.lists[g]
    requires f in cfg.funs && ListInv(cfg, s', f)
    requires t in s.home ==> s.home[t] == f
    requires t in s'.home ==> s'.home[t] == f
    ensures Inv(cfg, s')
  {
    hide AllLists; hide AllReqs; hide Homes; hide AnswerInv; hide AllTasks; hide TaskInv; hide ListInv; hide PhaseOn;
    assert t in s'.home || s'.reqs[q].phase == Holding(t) by { hide Inv; hide Listed; }
    HandsTasks(cfg, s, s', t, q);
    HandsReqs(cfg, s, s', t, q);
    HandsHomes(cfg, s, s', t, q);
    HandsAnswers(s, s', t, q);
    HandsLists(cfg, s, s', t, f);
  }

  /* GetT with spare capacity. */

  lemma Elsewhere(cfg: Config, s: State, q: ReqId, t: TId)
    requires Inv(cfg, s) && t in s.tasks && q in s.reqs && !s.reqs[q].phase.OnTask()
    ensures TaskInv(cfg, s, t) && PhaseOn(s, q, t) == Over && Placed(s.tasks[t], t, q, Over, Wasm(cfg, s, q))
  {
    assert TaskInv(cfg, s, t);
    assert Placed(s.tasks[t], t, q, PhaseOn(s, q, t), Wasm(cfg, s, q));
  }

  /** Only what task t is counted for changes: one more request waits for it. */
  lemma OneMoreWaits(cfg: Config, s: State, s': State, q: ReqId, t: TId)
    requires t in s.tasks && t in s'.tasks && s'.tasks[t] == s.tasks[t] && TaskInv(cfg, s, t)
    requires q in s.reqs && PhaseOn(s, q, t) == Over && s'.reqs == s.reqs[q := Req(s.reqs[q].f, Chosen(t))]
    requires Listed(s', t) == Listed(s, t) + 1
    requires t in s'.home && (t in s.home ==> s'.home[t] == s.home[t])
    ensures TaskInv(cfg, s', t)
  {
    hide TaskOk; hide Listed;
    forall x
      ensures Placed(s.tasks[t], t, x, PhaseOn(s', x, t), Wasm(cfg, s', x))
    {
      OtherPlaced(cfg, s, s', q, t, x);
    }
    OneMoreOwed(s, s', q, t);
  }

  lemma OtherPlaced(cfg: Config, s: State, s': State, q: ReqId, t: TId, x: ReqId)
    requires q in s.reqs && PhaseOn(s, q, t) == Over && s'.reqs == s.reqs[q := Req(s.reqs[q].f, Chosen(t))]
             && t in s.tasks
    requires Placed(s.tasks[t], t, x, PhaseOn(s, x, t), Wasm(cfg, s, x))
    ensures Placed(s.tasks[t], t, x, PhaseOn(s', x, t), Wasm(cfg, s', x))
  {
    hide WorksOn; hide InDone;
  }

  lemma OneMoreOwed(s: State, s': State, q: ReqId, t: TId)
    requires t in s.tasks && t in s'.tasks && s'.tasks[t] == s.tasks[t]
    requires q in s.reqs && PhaseOn(s, q, t) == Over && s'.reqs == s.reqs[q := Req(s.reqs[q].f, Chosen(t))]
    ensures Owed(s', t) == Owed(s, t) + 1
  {
    assert q !in Waiting(s, t);
    assert Waiting(s', t) == Waiting(s, t) + {q};
  }

  lemma TakeList(cfg: Config, s: State, s': State, f: FId)
    requires f in cfg.funs && ListInv(cfg, s, f) && f in s'.lists && s'.home == s.home
    requires Cursor(s.lists[f], cfg.funs[f].concurrency) < |s.lists[f]|
    requires s'.lists[f] == TakeOne(s.lists[f], cfg.funs[f].concurrency)
    ensures ListInv(cfg, s', f)
    ensures var t := s.lists[f][Cursor(s.lists[f], cfg.funs[f].concurrency)].t;
            Has(s.lists[f], t) && Changed(s.lists[f], s'.lists[f], t, CountOf(s.lists[f], t) + 1)
  {
    var max := cfg.funs[f].concurrency;
    var t := s.lists[f][Cursor(s.lists[f], max)].t;
    TakeOneMeaning(s.lists[f], max);
    HasAt(s.lists[f], Cursor(s.lists[f], max));
    hide TakeOne; hide Ok; hide CountOf; hide Has;
    forall u
      ensures Has(s'.lists[f], u) <==> Has(s.lists[f], u)
    {
      HasIsCounted(s.lists[f], max, u);
      HasIsCounted(s'.lists[f], max, u);
    }
  }

  lemma GetTOk(cfg: Config, s: State, q: ReqId)
    requires Inv(cfg, s) && q in s.reqs && s.reqs[q].phase == Acquired && s.reqs[q].f in cfg.funs
             && s.reqs[q].f in s.lists
    ensures Inv(cfg, TakeT(cfg, s, q))
  {
    hide Inv; hide Ok; hide Has; hide TakeOne; hide CountOf; hide ListInv; hide TaskInv; hide Changed;
    var f := s.reqs[q].f;
    var l, max := s.lists[f], cfg.funs[f].concurrency;
    Locked(cfg, s, q);
    if Cursor(l, max) < |l| {
      var s' := TakeT(cfg, s, q);
      var t := l[Cursor(l, max)].t;
      ListOf(cfg, s, f);
      TakeList(cfg, s, s', f);
      HomeOf(cfg, s, f, t);
      Elsewhere(cfg, s, q, t);
      TakeCounts(s, s', f, t, max);
      hide Placed; hide Wasm; hide Listed;
      OneMoreWaits(cfg, s, s', q, t);
      HandsOk(cfg, s, s', t, q, f);
    } else {
      QuietOk(cfg, s, s.At(q, NoSpare), q);
    }
  }

  lemma TakeCounts(s: State, s': State, f: FId, t: TId, max: int)
    requires f in s.lists && s'.home == s.home && s'.lists.Keys == s.lists.Keys && t in s.home && s.home[t] == f
    requires forall g <- s.lists :: g != f ==> s'.lists[g] == s.lists[g]
    requires Changed(s.lists[f], s'.lists[f], t, CountOf(s.lists[f], t) + 1)
    ensures Listed(s', t) == Listed(s, t) + 1
    ensures forall u :: u != t ==> Listed(s', u) == Listed(s, u)
  {
    hide CountOf;
  }

  lemma Locked(cfg: Config, s: State, q: ReqId)
    requires Inv(cfg, s) && q in s.reqs && s.reqs[q].phase.Locks()
    ensures s.lock == Some(q)
  {
    assert ReqInv(cfg, s, q);
  }

  lemma ListOf(cfg: Config, s: State, f: FId)
    requires Inv(cfg, s) && f in cfg.funs
    ensures ListInv(cfg, s, f) && f in s.lists && Ok(s.lists[f], cfg.funs[f].concurrency)
            && cfg.funs[f].concurrency >= 1
  {
  }

  lemma HomeOf(cfg: Config, s: State, f: FId, t: TId)
    requires Inv(cfg, s) && f in cfg.funs && f in s.lists && Has(s.lists[f], t)
    ensures t in s.home && s.home[t] == f && t in s.tasks
  {
    hide Has; hide Ok;
    assert ListInv(cfg, s, f);
  }

  /* Probe that finds an idle task. */

  /** A task that owes nothing is between two requests, and no request is with it. */
  lemma NothingOwed(cfg: Config, s: State, t: TId)
    requires t in s.tasks && TaskInv(cfg, s, t) && Owed(s, t) == 0
    ensures s.tasks[t].iCount == 0 && s.tasks[t].pc == Ready && Waiting(s, t) == {}
    ensures forall x :: PhaseOn(s, x, t) == Over
  {
    var k := s.tasks[t];
    assert Waiting(s, t) == {} && k.queue == [] && k.pool.busy == {} && k.pool.done == [] && k.pc == Ready;
    forall x
      ensures PhaseOn(s, x, t) == Over
    {
      assert Placed(k, t, x, PhaseOn(s, x, t), Wasm(cfg, s, x));
      assert x !in Waiting(s, t);
      assert !InDone(k, x) && forall w :: !WorksOn(k, w, x);
      hide TaskInv; hide TaskOk;
    }
  }

  /** A task that no request is with before and after is undisturbed. */
  lemma StillUntouched(cfg: Config, s: State, s': State, t: TId)
    requires t in s.tasks && t in s'.tasks && s'.tasks[t] == s.tasks[t] && TaskInv(cfg, s, t)
    requires s.tasks[t].iCount == 0 && s.tasks[t].pc == Ready && Listed(s, t) == 0 && Listed(s', t) == 0
    requires forall x :: PhaseOn(s, x, t) == Over && PhaseOn(s', x, t) == Over
    ensures TaskInv(cfg, s', t)
  {
    hide Listed;
    forall x
      ensures Placed(s.tasks[t], t, x, PhaseOn(s', x, t), Wasm(cfg, s', x))
    {
      assert Placed(s.tasks[t], t, x, PhaseOn(s, x, t), Wasm(cfg, s, x));
    }
    assert Waiting(s', t) == Waiting(s, t) by {
      forall x
        ensures x in Waiting(s', t) <==> x in Waiting(s, t)
      {
        assert PhaseOn(s, x, t) == PhaseOn(s', x, t);
      }
    }
  }

  lemma StealList(cfg: Config, s: State, s': State, f: FId, t: TId)
    requires f in cfg.funs && ListInv(cfg, s, f) && f in s'.lists && s'.home == s.home - {t}
    requires IdleAtBack(s.lists[f]) && t == s.lists[f][|s.lists[f]| - 1].t && s'.lists[f] == TakeIdle(s.lists[f])
    ensures ListInv(cfg, s', f) && Has(s.lists[f], t)
    ensures CountOf(s.lists[f], t) == 0 && Changed(s.lists[f], s'.lists[f], t, -1)
  {
    var max := cfg.funs[f].concurrency;
    TakeIdleOk(s.lists[f], max);
    HasAt(s.lists[f], |s.lists[f]| - 1);
    hide TakeIdle; hide Ok; hide CountOf; hide Has; hide IdleAtBack;
    forall u
      ensures Has(s'.lists[f], u) <==> u in s'.home && s'.home[u] == f
    {
      HasIsCounted(s.lists[f], max, u);
      HasIsCounted(s'.lists[f], max, u);
    }
  }

  lemma StealCounts(s: State, s': State, f: FId, t: TId)
    requires f in s.lists && s'.home == s.home - {t} && s'.lists.Keys == s.lists.Keys && t in s.home && s.home[t] == f
    requires forall g <- s.lists :: g != f ==> s'.lists[g] == s.lists[g]
    requires CountOf(s.lists[f], t) == 0 && Changed(s.lists[f], s'.lists[f], t, -1)
    ensures Listed(s', t) == Listed(s, t) == 0
    ensures forall u :: u != t ==> Listed(s', u) == Listed(s, u)
  {
    hide CountOf;
  }

  lemma TaskOf(cfg: Config, s: State, t: TId)
    requires Inv(cfg, s) && t in s.tasks
    ensures TaskInv(cfg, s, t) && Listed(s, t) == Owed(s, t)
  {
    assert TaskInv(cfg, s, t);
  }

  ghost function Stolen(s: State, q: ReqId, f: FId, t: TId): State
    requires q in s.reqs && f in s.lists && IdleAtBack(s.lists[f])
  {
    s.(lists := s.lists[f := TakeIdle(s.lists[f])], home := s.home - {t}).At(q, Holding(t))
  }

  lemma StolenPhases(s: State, q: ReqId, f: FId, t: TId)
    requires q in s.reqs && f in s.lists && IdleAtBack(s.lists[f]) && forall x :: PhaseOn(s, x, t) == Over
    ensures forall x :: PhaseOn(Stolen(s, q, f, t), x, t) == Over
  {
    forall x
      ensures PhaseOn(Stolen(s, q, f, t), x, t) == Over
    {
      assert PhaseOn(s, x, t) == Over;
    }
  }

  lemma StolenOk(cfg: Config, s: State, q: ReqId, f: FId, t: TId)
    requires Inv(cfg, s) && q in s.reqs && s.reqs[q].phase.Scan? && f in cfg.funs && f in s.lists
    requires IdleAtBack(s.lists[f]) && t == s.lists[f][|s.lists[f]| - 1].t
    ensures Inv(cfg, Stolen(s, q, f, t))
  {
    hide Inv; hide Ok; hide Has; hide TakeIdle; hide CountOf; hide ListInv; hide TaskInv; hide Changed; hide IdleAtBack;
    var s' := Stolen(s, q, f, t);
    Locked(cfg, s, q);
    ListOf(cfg, s, f);
    StealList(cfg, s, s', f, t);
    HomeOf(cfg, s, f, t);
    TaskOf(cfg, s, t);
    StealCounts(s, s', f, t);
    hide Listed;
    NothingOwed(cfg, s, t);
    StolenPhases(s, q, f, t);
    StillUntouched(cfg, s, s', t);
    hide PhaseOn; hide Owed; hide Waiting;
    HandsOk(cfg, s, s', t, q, f);
  }

  lemma FunOf(cfg: Config, s: State, f: FId)
    requires Inv(cfg, s)
    ensures f in s.lists <==> f in cfg.funs
  {
  }

  lemma ProbeOk(cfg: Config, s: State, q: ReqId)
    requires Inv(cfg, s) && q in s.reqs && s.reqs[q].phase.Scan? && s.reqs[q].phase.todo != []
             && s.reqs[q].f in cfg.funs
    ensures Inv(cfg, ProbeF(s, q))
  {
    hide Inv; hide Ok; hide TakeIdle;
    var Scan(todo, others) := s.reqs[q].phase;
    var f := todo[0];
    Locked(cfg, s, q);
    if (others == None && f == s.reqs[q].f) || f !in s.lists || !IdleAtBack(s.lists[f]) {
      QuietOk(cfg, s, s.At(q, Scan(todo[1..], others)), q);
    } else {
      FunOf(cfg, s, f);
      StolenOk(cfg, s, q, f, s.lists[f][|s.lists[f]| - 1].t);
    }
  }

  /* Create. */

  lemma CreateOk(cfg: Config, s: State, q: ReqId, t: TId)
    requires Inv(cfg, s) && q in s.reqs && s.reqs[q].f in cfg.funs && s.reqs[q].phase.Scan? && t !in s.tasks
    ensures Inv(cfg, s.(tasks := s.tasks[t := NEW_TASK]).At(q, Holding(t)))
  {
    hide Inv; hide ListInv; hide TaskInv;
    var s' := s.(tasks := s.tasks[t := NEW_TASK]).At(q, Holding(t));
    Locked(cfg, s, q);
    Unknown(cfg, s, t);
    ListOf(cfg, s, s.reqs[q].f);
    CreatedPhases(s, s', q, t);
    CreatedTask(cfg, s', t);
    assert ListInv(cfg, s', s.reqs[q].f) by { CreatedList(cfg, s, s', s.reqs[q].f); }
    hide PhaseOn;
    HandsOk(cfg, s, s', t, q, s.reqs[q].f);
  }

  lemma Unknown(cfg: Config, s: State, t: TId)
    requires Inv(cfg, s) && t !in s.tasks
    ensures t !in s.home && forall x :: PhaseOn(s, x, t) == Over
  {
    forall x
      ensures PhaseOn(s, x, t) == Over
    {
      assert x in s.reqs ==> ReqInv(cfg, s, x);
      hide AllTasks; hide AllLists; hide AllReqs; hide Homes; hide AnswerInv;
    }
  }

  lemma CreatedPhases(s: State, s': State, q: ReqId, t: TId)
    requires q in s.reqs && s'.reqs == s.At(q, Holding(t)).reqs && forall x :: PhaseOn(s, x, t) == Over
    ensures forall x :: PhaseOn(s', x, t) == Over
  {
    forall x
      ensures PhaseOn(s', x, t) == Over
    {
      assert PhaseOn(s, x, t) == Over;
    }
  }

  lemma CreatedTask(cfg: Config, s: State, t: TId)
    requires t in s.tasks && s.tasks[t] == NEW_TASK && t !in s.home && forall x :: PhaseOn(s, x, t) == Over
    ensures TaskInv(cfg, s, t)
  {
    assert forall x :: x in Waiting(s, t) ==> PhaseOn(s, x, t) == Reserved(t);
    assert Waiting(s, t) == {};
    forall x
      ensures Placed(NEW_TASK, t, x, Over, Wasm(cfg, s, x))
    {
      assert !InDone(NEW_TASK, x) && forall w :: !WorksOn(NEW_TASK, w, x);
    }
  }

  lemma CreatedList(cfg: Config, s: State, s': State, f: FId)
    requires f in cfg.funs && ListInv(cfg, s, f) && s'.lists == s.lists && s'.home == s.home
    ensures ListInv(cfg, s', f)
  {
  }

  /* AddT. */

  lemma AddList(cfg: Config, s: State, s': State, f: FId, t: TId)
    requires f in cfg.funs && ListInv(cfg, s, f) && cfg.funs[f].concurrency >= 1 && f in s'.lists
    requires t !in s.home && s'.home == s.home[t := f]
             && s'.lists[f] == Adjust(s.lists[f], cfg.funs[f].concurrency, t, 1)
    ensures ListInv(cfg, s', f) && Changed(s.lists[f], s'.lists[f], t, 1)
  {
    var max := cfg.funs[f].concurrency;
    assert !Has(s.lists[f], t);
    NewOk(s.lists[f], max, t, 1);
    hide Adjust; hide Ok; hide CountOf; hide Has;
    forall u
      ensures Has(s'.lists[f], u) <==> u in s'.home && s'.home[u] == f
    {
      HasIsCounted(s.lists[f], max, u);
      HasIsCounted(s'.lists[f], max, u);
    }
  }

  lemma AddCounts(s: State, s': State, f: FId, t: TId)
    requires f in s.lists && s'.home == s.home[t := f] && s'.lists.Keys == s.lists.Keys && t !in s.home
    requires forall g <- s.lists :: g != f ==> s'.lists[g] == s.lists[g]
    requires Changed(s.lists[f], s'.lists[f], t, 1)
    ensures Listed(s', t) == 1 == Listed(s, t) + 1
    ensures forall u :: u != t ==> Listed(s', u) == Listed(s, u)
  {
    hide CountOf;
  }

  lemma HeldBy(cfg: Config, s: State, q: ReqId, t: TId)
    requires Inv(cfg, s) && q in s.reqs && s.reqs[q].phase == Holding(t)
    ensures t in s.tasks && t !in s.home
    ensures forall x :: PhaseOn(s, x, t) == Over
  {
    assert ReqInv(cfg, s, q);
    forall x
      ensures PhaseOn(s, x, t) == Over
    {
      assert x in s.reqs ==> ReqInv(cfg, s, x);
      hide AllTasks; hide AllLists; hide AllReqs; hide Homes; hide AnswerInv;
    }
  }

  lemma AddTOk(cfg: Config, s: State, q: ReqId, t: TId)
    requires Inv(cfg, s) && q in s.reqs && s.reqs[q].phase == Holding(t) && s.reqs[q].f in cfg.funs
             && s.reqs[q].f in s.lists
    ensures match NewT(cfg, s, q, t)
            case To(s') => Inv(cfg, s')
            case _ => false
  {
    hide Inv; hide Ok; hide Has; hide Adjust; hide CountOf; hide ListInv; hide TaskInv; hide Changed; hide Cursor;
    var f := s.reqs[q].f;
    HeldBy(cfg, s, q, t);
    Locked(cfg, s, q);
    ListOf(cfg, s, f);
    NotListedThere(cfg, s, f, t);
    var s' := NewT(cfg, s, q, t).state;
    AddList(cfg, s, s', f, t);
    AddCounts(s, s', f, t);
    Elsewhere(cfg, s, q, t);
    OneMoreWaits(cfg, s, s', q, t);
    hide PhaseOn; hide Placed; hide Wasm; hide Listed;
    HandsOk(cfg, s, s', t, q, f);
  }

  lemma NotListedThere(cfg: Config, s: State, f: FId, t: TId)
    requires f in cfg.funs && ListInv(cfg, s, f) && t !in s.home
    ensures !Has(s.lists[f], t)
  {
    hide Has; hide Ok;
  }
}
