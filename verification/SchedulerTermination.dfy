/** Without further arrivals the scheduler comes to rest, after a number of steps that is bounded
    by the requests and functions there are. */
module SchedulerTermination {
  import opened LruSpec
  import opened Pools
  import opened Scheduler
  import opened SchedulerHandSteps
  import opened SchedulerInv
  import opened SchedulerLiveness
  import opened SchedulerRuns
  import opened SchedulerTaskSteps
  import opened Sequences
  import opened Tasks
  import opened TListSpec
  import opened Wrappers

  /* The lists that are scanned are short. */

  ghost predicate Short(cfg: Config, s: State) {
    && Distinct(s.rs) && (forall r <- s.rs :: r in Rs(cfg))
    && (forall r <- s.fs :: Distinct(s.fs[r]) && forall f <- s.fs[r] :: f in cfg.funs)
    && (forall q <- s.reqs :: ShortScan(cfg, s.reqs[q].phase))
  }

  ghost predicate ShortScan(cfg: Config, p: Phase) {
    p.Scan? ==> |p.todo| <= |cfg.funs| && (p.others.Some? ==> |p.others.value| <= |cfg.funs|)
  }

  ghost function Rs(cfg: Config): set<RId> {
    set f | f in cfg.funs :: cfg.funs[f].r
  }

  lemma {:induction false} ImageCard(fs: set<FId>, funs: map<FId, Fun>)
    requires fs <= funs.Keys
    ensures |set f | f in fs :: funs[f].r| <= |fs|
  {
    if f :| f in fs {
      ImageCard(fs - {f}, funs);
      assert (set g | g in fs :: funs[g].r) == (set g | g in fs - {f} :: funs[g].r) + {funs[f].r};
    }
  }

  lemma {:induction false} DistinctWithin<X>(s: seq<X>, xs: set<X>)
    requires Distinct(s) && forall x <- s :: x in xs
    ensures |s| <= |xs|
  {
    if s != [] {
      var rest := s[..|s| - 1];
      var last := s[|s| - 1];
      assert last !in rest;
      DistinctWithin(rest, xs - {last});
    }
  }

  lemma ShortLists(cfg: Config, s: State, r: RId)
    requires Short(cfg, s)
    ensures |s.rs| <= |cfg.funs| && |s.FList(r)| <= |cfg.funs|
  {
    DistinctWithin(s.rs, Rs(cfg));
    ImageCard(cfg.funs.Keys, cfg.funs);
    assert Rs(cfg) == set f | f in cfg.funs.Keys :: cfg.funs[f].r;
    if r in s.fs {
      DistinctWithin(s.fs[r], cfg.funs.Keys);
    }
  }

  lemma AccessDistinct<U>(s: seq<U>, u: U)
    requires Distinct(s)
    ensures Distinct(Access(s, u)) && forall x <- Access(s, u) :: x == u || x in s
  {
    if u in s {
      DistinctDrop(s, First(s, u));
      var rest := Drop(s, First(s, u));
      assert u !in rest && Access(s, u) == rest + [u];
      assert forall x <- rest :: x in s;
    }
  }

  /** How many steps a request in a phase can still take part in, at most; n is the number of
      functions. */
  ghost function Rank(n: nat, p: Phase, running: bool): nat {
    var scan := 10 + n * (n + 1);
    match p
    case Arrived => scan + n + 6
    case RListed => scan + n + 5
    case FListed => scan + n + 4
    case Acquired => scan + n + 3
    case NoSpare => scan + n + 2
    case Scan(todo, None) => scan + |todo| + 1
    case Scan(todo, Some(rs)) => 10 + |todo| + |rs| * (n + 1)
    case Holding(_) => 9
    case Chosen(_) => 8
    case Reserved(_) => 7
    case Queued(_) => 6
    case Entered(_) => 5
    case InPool(_, _) => if running then 3 else 4
    case Finished(_) => 2
    case Answered(_) => 1
    case Over => 0
  }

  /** Request q is being executed by a worker. */
  ghost predicate Running(s: State, q: ReqId)
    requires q in s.reqs
  {
    var p := s.reqs[q].phase;
    p.InPool? && p.t in s.tasks && p.w in s.tasks[p.t].pool.workers && s.tasks[p.t].pool.workers[p.w].running.Some?
  }

  ghost function RankOf(cfg: Config, s: State, q: ReqId): nat
    requires q in s.reqs
  {
    Rank(|cfg.funs|, s.reqs[q].phase, Running(s, q))
  }

  ghost function Total(cfg: Config, s: State, qs: set<ReqId>): nat
    requires qs <= s.reqs.Keys
    decreases |qs|
  {
    if qs == {} then 0
    else
      var q :| q in qs;
      RankOf(cfg, s, q) + Total(cfg, s, qs - {q})
  }

  lemma {:induction false} TotalSplit(cfg: Config, s: State, qs: set<ReqId>, q: ReqId)
    requires qs <= s.reqs.Keys && q in qs
    ensures Total(cfg, s, qs) == RankOf(cfg, s, q) + Total(cfg, s, qs - {q})
    decreases |qs|
  {
    hide RankOf;
    var x :| x in qs && Total(cfg, s, qs) == RankOf(cfg, s, x) + Total(cfg, s, qs - {x});
    if x != q {
      TotalSplit(cfg, s, qs - {x}, q);
      TotalSplit(cfg, s, qs - {q}, x);
      assert qs - {x} - {q} == qs - {q} - {x};
    }
  }

  lemma {:induction false} TotalSame(cfg: Config, s: State, s': State, qs: set<ReqId>)
    requires qs <= s.reqs.Keys && qs <= s'.reqs.Keys && forall q <- qs :: RankOf(cfg, s', q) == RankOf(cfg, s, q)
    ensures Total(cfg, s', qs) == Total(cfg, s, qs)
    decreases |qs|
  {
    hide RankOf;
    if qs != {} {
      var q :| q in qs && Total(cfg, s, qs) == RankOf(cfg, s, q) + Total(cfg, s, qs - {q});
      TotalSame(cfg, s, s', qs - {q});
      TotalSplit(cfg, s', qs, q);
    }
  }

  /** One request gets further and the others stay where they are. */
  ghost predicate Advances(cfg: Config, s: State, s': State, q: ReqId) {
    && q in s.reqs && s'.reqs.Keys == s.reqs.Keys
    && RankOf(cfg, s', q) < RankOf(cfg, s, q)
    && forall x <- s.reqs :: x != q ==> RankOf(cfg, s', x) == RankOf(cfg, s, x)
  }

  lemma TotalDrops(cfg: Config, s: State, s': State, q: ReqId)
    requires Advances(cfg, s, s', q)
    ensures Total(cfg, s', s'.reqs.Keys) < Total(cfg, s, s.reqs.Keys)
  {
    hide RankOf;
    TotalSplit(cfg, s, s.reqs.Keys, q);
    TotalSplit(cfg, s', s'.reqs.Keys, q);
    TotalSame(cfg, s, s', s.reqs.Keys - {q});
  }

  lemma AdvancesIf(cfg: Config, s: State, s': State, q: ReqId)
    requires q in s.reqs && q in s'.reqs && s'.reqs == s.reqs[q := s'.reqs[q]]
    requires RankOf(cfg, s', q) < RankOf(cfg, s, q)
    requires forall x <- s.reqs :: x != q && s.reqs[x].phase.InPool? ==> Running(s', x) == Running(s, x)
    ensures Advances(cfg, s, s', q)
  {
    forall x | x in s.reqs && x != q
      ensures RankOf(cfg, s', x) == RankOf(cfg, s, x)
    {
      hide Running;
      SameRank(|cfg.funs|, s.reqs[x].phase, Running(s, x), Running(s', x));
    }
  }

  lemma SameRank(n: nat, p: Phase, a: bool, b: bool)
    requires p.InPool? ==> a == b
    ensures Rank(n, p, a) == Rank(n, p, b)
  {
  }

  /** A step that leaves the workers of every task alone. */
  ghost predicate SameWorkers(s: State, s': State) {
    s'.tasks.Keys >= s.tasks.Keys && forall t <- s.tasks :: s'.tasks[t].pool.workers == s.tasks[t].pool.workers
  }

  lemma SameRunning(s: State, s': State, q: ReqId, x: ReqId)
    requires SameWorkers(s, s') && q in s.reqs && q in s'.reqs && s'.reqs == s.reqs[q := s'.reqs[q]] && x in s.reqs
             && x != q
    requires s.reqs[x].phase.InPool? ==> s.reqs[x].phase.t in s.tasks
    ensures Running(s', x) == Running(s, x)
  {
  }

  /** A request moves to a phase of lower rank while no worker changes. */
  lemma PhaseAdvances(cfg: Config, s: State, s': State, q: ReqId)
    requires Inv(cfg, s) && SameWorkers(s, s') && q in s.reqs && q in s'.reqs && s'.reqs == s.reqs[q := s'.reqs[q]]
    requires !s.reqs[q].phase.InPool? && !s'.reqs[q].phase.InPool?
    requires Rank(|cfg.funs|, s'.reqs[q].phase, false) < Rank(|cfg.funs|, s.reqs[q].phase, false)
    ensures Advances(cfg, s, s', q)
  {
    hide Inv; hide Advances; hide Rank;
    forall x | x in s.reqs && x != q && s.reqs[x].phase.InPool?
      ensures Running(s', x) == Running(s, x)
    {
      OnTaskIn(cfg, s, x);
      hide Running; hide SameWorkers;
      SameRunning(s, s', q, x);
    }
    hide SameWorkers;
    AdvancesIf(cfg, s, s', q);
  }

  /* Ranks along a dispatch. */

  lemma RowBound(k: nat, n: nat)
    requires k <= n
    ensures k * (n + 1) <= n * (n + 1)
    ensures k > 0 ==> k * (n + 1) == (k - 1) * (n + 1) + n + 1
  {
  }

  /** The phase a request moves to from one to the next step of its dispatch. */
  ghost predicate Next(cfg: Config, s: State, q: ReqId, s': State) {
    && q in s.reqs && q in s'.reqs && s'.reqs == s.reqs[q := s'.reqs[q]] && s'.reqs[q].f == s.reqs[q].f
    && SameWorkers(s, s')
    && !s.reqs[q].phase.InPool? && !s'.reqs[q].phase.InPool? && ShortScan(cfg, s'.reqs[q].phase)
    && Rank(|cfg.funs|, s'.reqs[q].phase, false) < Rank(|cfg.funs|, s.reqs[q].phase, false)
  }

  lemma ShortPhase(cfg: Config, s: State, q: ReqId)
    requires Short(cfg, s) && q in s.reqs
    ensures ShortScan(cfg, s.reqs[q].phase)
  {
  }

  lemma NextPlain(cfg: Config, s: State, q: ReqId, m: Move, s': State)
    requires q in s.reqs && s.reqs[q].f in cfg.funs && Advance(cfg, s, q, m) == To(s')
    requires m.AccessR? || m.AccessF? || m.Acquire? || m.Release? || m.Push?
    ensures Next(cfg, s, q, s')
  {
    hide Access; hide State.FList;
  }

  lemma NextTask(cfg: Config, s: State, q: ReqId, m: Move, s': State)
    requires q in s.reqs && s.reqs[q].f in cfg.funs && Advance(cfg, s, q, m) == To(s')
             && ShortScan(cfg, s.reqs[q].phase)
    requires m.GetT? || m.Probe? || m.AddT?
    ensures Next(cfg, s, q, s')
  {
    hide Cursor; hide Adjust; hide TakeOne; hide TakeIdle; hide IdleAtBack; hide Has;
  }

  lemma NextSnapshot(cfg: Config, s: State, q: ReqId, m: Move, s': State)
    requires q in s.reqs && s.reqs[q].f in cfg.funs && Advance(cfg, s, q, m) == To(s') && Short(cfg, s)
    requires m.SnapshotF? || m.SnapshotR? || m.NextR?
    ensures Next(cfg, s, q, s')
  {
    var n, p := |cfg.funs|, s.reqs[q].phase;
    ShortPhase(cfg, s, q);
    ShortLists(cfg, s, cfg.funs[s.reqs[q].f].r);
    if m.NextR? && p.Scan? && p.others.Some? && p.others.value != [] {
      ShortLists(cfg, s, p.others.value[0]);
      RowBound(|p.others.value|, n);
    }
    RowBound(|s.rs|, n);
    hide Short; hide State.FList;
  }

  lemma NextMove(cfg: Config, s: State, q: ReqId, m: Move, s': State)
    requires q in s.reqs && s.reqs[q].f in cfg.funs && Advance(cfg, s, q, m) == To(s') && Short(cfg, s)
    ensures Next(cfg, s, q, s')
  {
    hide Advance; hide Short; hide Next; hide ShortScan;
    ShortPhase(cfg, s, q);
    if m.GetT? || m.Probe? || m.AddT? {
      NextTask(cfg, s, q, m, s');
    } else if m.SnapshotF? || m.SnapshotR? || m.NextR? {
      NextSnapshot(cfg, s, q, m, s');
    } else {
      NextPlain(cfg, s, q, m, s');
    }
  }

  lemma ShortMove(cfg: Config, s: State, q: ReqId, m: Move, s': State)
    requires q in s.reqs && s.reqs[q].f in cfg.funs && Advance(cfg, s, q, m) == To(s') && Short(cfg, s)
             && Next(cfg, s, q, s')
    ensures Short(cfg, s')
  {
    var f := s.reqs[q].f;
    var r := cfg.funs[f].r;
    assert ShortScan(cfg, s'.reqs[q].phase);
    MoveLists(cfg, s, q, m, s');
    AccessDistinct(s.rs, r);
    AccessDistinct(s.FList(r), f);
    hide Access; hide Advance; hide ShortScan; hide SameWorkers; hide Rank;
    assert r in Rs(cfg);
    hide Rs;
  }

  lemma MoveLists(cfg: Config, s: State, q: ReqId, m: Move, s': State)
    requires q in s.reqs && s.reqs[q].f in cfg.funs && Advance(cfg, s, q, m) == To(s')
    ensures var r := cfg.funs[s.reqs[q].f].r;
            && (s'.rs == s.rs || s'.rs == Access(s.rs, r))
            && (s'.fs == s.fs || s'.fs == s.fs[r := Access(s.FList(r), s.reqs[q].f)])
  {
    hide Access; hide Cursor; hide Adjust; hide TakeOne; hide TakeIdle; hide IdleAtBack; hide Has; hide State.FList;
  }

  lemma DispatchAdvances(cfg: Config, s: State, q: ReqId, m: Move, s': State)
    requires Inv(cfg, s) && q in s.reqs && s.reqs[q].f in cfg.funs && Advance(cfg, s, q, m) == To(s') && Short(cfg, s)
    ensures Advances(cfg, s, s', q) && Short(cfg, s')
  {
    hide Inv; hide Advance; hide Advances; hide Short;
    NextMove(cfg, s, q, m, s');
    ShortMove(cfg, s, q, m, s');
    hide Rank; hide ShortScan; hide SameWorkers;
    PhaseAdvances(cfg, s, s', q);
  }

  /* Ranks along the work of a task. */

  /** The step of a task or worker moves request q to a phase that is no scan. */
  ghost predicate Works(s: State, q: ReqId, s': State) {
    && q in s.reqs && q in s'.reqs && s'.reqs == s.reqs[q := s'.reqs[q]] && !s'.reqs[q].phase.Scan?
    && s'.rs == s.rs && s'.fs == s.fs
  }

  lemma ShortWorks(cfg: Config, s: State, q: ReqId, s': State)
    requires Works(s, q, s') && Short(cfg, s)
    ensures Short(cfg, s')
  {
    hide Rs;
  }

  /** Where a request is executed its worker is busy with it and with nothing else. */
  lemma InPoolIs(cfg: Config, s: State, x: ReqId)
    requires Inv(cfg, s) && x in s.reqs && s.reqs[x].phase.InPool?
    ensures var p := s.reqs[x].phase; p.t in s.tasks && WorksOn(s.tasks[p.t], p.w, x)
  {
    hide Inv; hide WorksOn; hide TaskOk; hide Wasm; hide AnswerInv;
    OnTaskIn(cfg, s, x);
    AtTask(cfg, s, s.reqs[x].phase.t, x);
  }

  /** The workers of task t other than w stay, and so do all workers of other tasks. */
  ghost predicate OnlyWorker(s: State, s': State, t: TId, w: WId) {
    && t in s.tasks && t in s'.tasks && s'.tasks == s.tasks[t := s'.tasks[t]]
    && forall v <- s.tasks[t].pool.busy :: v != w ==>
         (v in s'.tasks[t].pool.workers <==> v in s.tasks[t].pool.workers)
         && (v in s.tasks[t].pool.workers ==> s'.tasks[t].pool.workers[v] == s.tasks[t].pool.workers[v])
  }

  /** A step that touches one worker advances a request if no other request is with that worker. */
  lemma WorkerAdvances(cfg: Config, s: State, s': State, q: ReqId, t: TId, w: WId)
    requires Inv(cfg, s) && OnlyWorker(s, s', t, w) && Works(s, q, s') && RankOf(cfg, s', q) < RankOf(cfg, s, q)
    requires forall x :: WorksOn(s.tasks[t], w, x) ==> x == q
    ensures Advances(cfg, s, s', q)
  {
    hide Inv; hide RankOf; hide Advances;
    forall x | x in s.reqs && x != q && s.reqs[x].phase.InPool?
      ensures Running(s', x) == Running(s, x)
    {
      InPoolIs(cfg, s, x);
    }
    hide OnlyWorker; hide Running;
    AdvancesIf(cfg, s, s', q);
  }

  lemma CreateAdvances(cfg: Config, s: State, q: ReqId, t: TId, s': State)
    requires Inv(cfg, s) && q in s.reqs && CreateT(s, q, t) == To(s')
    ensures Advances(cfg, s, s', q) && Works(s, q, s')
  {
    hide Inv; hide Advances;
    assert SameWorkers(s, s');
    hide SameWorkers;
    PhaseAdvances(cfg, s, s', q);
  }

  lemma PopAdvances(cfg: Config, s: State, t: TId, s': State)
    requires Inv(cfg, s) && t in s.tasks && DoPop(cfg, s, t) == To(s')
    ensures exists q :: Advances(cfg, s, s', q) && Works(s, q, s')
  {
    hide Inv; hide Advances; hide TaskOk; hide Wasm; hide AnswerInv; hide WorksOn; hide Placed; hide Serve; hide RankOf;
    var k := s.tasks[t];
    var q := k.queue[0];
    PhaseAt(cfg, s, t, q);
    assert Works(s, q, s');
    PopWorkers(cfg, k, s.reqs[q].f);
    PopRank(cfg, s, q, t, s');
    forall x | x in s.reqs && x != q && s.reqs[x].phase.InPool?
      ensures Running(s', x) == Running(s, x)
    {
      InPoolIs(cfg, s, x);
      BusyOf(k, s.reqs[x].phase.w, x);
    }
    hide Running; hide PopRequest;
    AdvancesIf(cfg, s, s', q);
  }

  lemma BusyOf(k: Task, w: WId, x: ReqId)
    ensures WorksOn(k, w, x) ==> w in k.pool.busy
  {
  }

  lemma PopRank(cfg: Config, s: State, q: ReqId, t: TId, s': State)
    requires q in s.reqs && q in s'.reqs && s.reqs[q].phase == Queued(t) && s'.reqs[q].phase == Entered(t)
    ensures RankOf(cfg, s', q) < RankOf(cfg, s, q)
  {
  }

  /** A pool is resized only while no worker is busy. */
  lemma PopWorkers(cfg: Config, k: Task, f: FId)
    requires f in cfg.funs && cfg.funs[f].concurrency >= 0 && k.queue != [] && PopRequest(cfg, k, f).Next?
    ensures k.pool.busy == {} || PopRequest(cfg, k, f).task.pool.workers == k.pool.workers
  {
  }

  lemma InvokeAdvances(cfg: Config, s: State, t: TId, created: WId, s': State)
    requires Inv(cfg, s) && t in s.tasks && DoInvoke(cfg, s, t, created) == To(s')
    ensures exists q :: Advances(cfg, s, s', q) && Works(s, q, s')
  {
    hide Inv; hide Advances; hide TaskOk; hide Wasm; hide AnswerInv; hide Placed; hide RankOf;
    var k := s.tasks[t];
    var q := k.pc.q;
    var w := k.pool.Chosen(created);
    hide WorksOn; hide InvokeWorker;
    PhaseAt(cfg, s, t, q);
    TaskIsOk(cfg, s, t);
    PoolIsOk(k);
    ChosenWaits(k, created);
    hide Pool.Ok; hide Pool.Chosen;
    assert Works(s, q, s');
    NotWorking(k, w);
    InvokeRank(cfg, s, q, t, w, s');
    WorkerAdvances(cfg, s, s', q, t, w);
  }

  /** The worker that gets the request was not busy, and no other worker changes. */
  lemma ChosenWaits(k: Task, created: WId)
    requires k.pool.Ok() && k.pc.At? && (k.pool.idle == [] ==> created !in k.pool.workers)
    ensures k.pool.Chosen(created) !in k.pool.busy
    ensures InvokeWorker(k, created).Next? ==>
              var p := InvokeWorker(k, created).task.pool;
              forall v <- k.pool.busy :: v in k.pool.workers && v in p.workers && p.workers[v] == k.pool.workers[v]
  {
  }

  lemma NotWorking(k: Task, w: WId)
    ensures w !in k.pool.busy ==> forall x :: !WorksOn(k, w, x)
  {
  }

  lemma InvokeRank(cfg: Config, s: State, q: ReqId, t: TId, w: WId, s': State)
    requires q in s.reqs && q in s'.reqs && s.reqs[q].phase == Entered(t) && s'.reqs[q].phase == InPool(t, w)
    ensures RankOf(cfg, s', q) < RankOf(cfg, s, q)
  {
    hide Running;
  }

  lemma StartAdvances(cfg: Config, s: State, t: TId, w: WId, s': State)
    requires Inv(cfg, s) && t in s.tasks && DoStart(s, t, w) == To(s')
    ensures exists q :: Advances(cfg, s, s', q) && Works(s, q, s')
  {
    hide Inv; hide Advances; hide TaskOk; hide Wasm; hide AnswerInv; hide Placed; hide RankOf;
    var k := s.tasks[t];
    var q := k.pool.Request(w);
    TaskIsOk(cfg, s, t);
    PoolIsOk(k);
    StartOk(k.pool, w);
    hide Pool.Ok;
    assert WorksOn(k, w, q);
    PhaseAt(cfg, s, t, q);
    assert s.reqs[q := s.reqs[q]] == s.reqs;
    assert Works(s, q, s');
    assert forall x :: WorksOn(k, w, x) ==> x == q;
    hide WorksOn;
    StartRank(cfg, s, q, t, w, s');
    WorkerAdvances(cfg, s, s', q, t, w);
  }

  lemma StartRank(cfg: Config, s: State, q: ReqId, t: TId, w: WId, s': State)
    requires q in s.reqs && s'.reqs == s.reqs && s.reqs[q].phase == InPool(t, w) && t in s.tasks
             && DoStart(s, t, w) == To(s')
    ensures RankOf(cfg, s', q) < RankOf(cfg, s, q)
  {
  }

  lemma FinishAdvances(cfg: Config, s: State, t: TId, w: WId, status: Status, s': State)
    requires Inv(cfg, s) && t in s.tasks && DoFinish(s, t, w, status) == To(s')
    ensures exists q :: Advances(cfg, s, s', q) && Works(s, q, s')
  {
    hide Inv; hide Advances; hide TaskOk; hide Wasm; hide AnswerInv; hide Placed; hide RankOf;
    var k := s.tasks[t];
    var q := k.pool.workers[w].running.value;
    TaskIsOk(cfg, s, t);
    FinishWorksOn(k, w, q);
    assert forall x :: WorksOn(k, w, x) ==> x == q;
    PhaseAt(cfg, s, t, q);
    hide WorksOn;
    assert Works(s, q, s');
    FinishRank(cfg, s, q, t, w, s');
    WorkerAdvances(cfg, s, s', q, t, w);
  }

  lemma FinishRank(cfg: Config, s: State, q: ReqId, t: TId, w: WId, s': State)
    requires q in s.reqs && q in s'.reqs && s.reqs[q].phase == InPool(t, w) && s'.reqs[q].phase == Finished(t)
    ensures RankOf(cfg, s', q) < RankOf(cfg, s, q)
  {
    hide Running;
  }

  lemma ExecuteAdvances(cfg: Config, s: State, t: TId, status: Status, s': State)
    requires Inv(cfg, s) && t in s.tasks && DoExecute(cfg, s, t, status) == To(s')
    ensures exists q :: Advances(cfg, s, s', q) && Works(s, q, s')
  {
    hide Inv; hide Advances;
    var q := s.tasks[t].pc.q;
    PhaseAt(cfg, s, t, q);
    assert Works(s, q, s') && SameWorkers(s, s');
    hide SameWorkers;
    PhaseAdvances(cfg, s, s', q);
  }

  lemma CollectAdvances(cfg: Config, s: State, t: TId, s': State)
    requires Inv(cfg, s) && t in s.tasks && DoCollect(s, t) == To(s')
    ensures exists q :: Advances(cfg, s, s', q) && Works(s, q, s')
  {
    hide Inv; hide Advances;
    var q := s.tasks[t].pool.done[0].q;
    assert InDone(s.tasks[t], q);
    PhaseAt(cfg, s, t, q);
    assert Works(s, q, s') && SameWorkers(s, s');
    hide SameWorkers;
    PhaseAdvances(cfg, s, s', q);
  }

  lemma ReturnAdvances(cfg: Config, s: State, t: TId, s': State)
    requires Inv(cfg, s) && t in s.tasks && DoReturn(cfg, s, t) == To(s')
    ensures exists q :: Advances(cfg, s, s', q) && Works(s, q, s')
  {
    hide Inv; hide Advances; hide ReturnOne; hide CountOf;
    var q := s.tasks[t].pc.q;
    PhaseAt(cfg, s, t, q);
    assert Works(s, q, s') && SameWorkers(s, s');
    hide SameWorkers;
    PhaseAdvances(cfg, s, s', q);
  }

  lemma WorkAdvances(cfg: Config, s: State, a: Action, s': State)
    requires Inv(cfg, s) && !a.Arrive? && !a.Dispatch? && Step(cfg, s, a) == To(s')
    ensures exists q :: Advances(cfg, s, s', q) && Works(s, q, s')
  {
    hide Inv; hide Advances; hide Works; hide CreateT;
    hide DoPop; hide DoInvoke; hide DoExecute; hide DoStart; hide DoFinish; hide DoCollect; hide DoReturn;
    match a
    case Create(q, t) => CreateAdvances(cfg, s, q, t, s');
    case Pop(t) => PopAdvances(cfg, s, t, s');
    case InvokeW(t, w) => InvokeAdvances(cfg, s, t, w, s');
    case Execute(t, status) => ExecuteAdvances(cfg, s, t, status, s');
    case StartW(t, w) => StartAdvances(cfg, s, t, w, s');
    case FinishW(t, w, status) => FinishAdvances(cfg, s, t, w, status, s');
    case Collect(t) => CollectAdvances(cfg, s, t, s');
    case Return(t) => ReturnAdvances(cfg, s, t, s');
  }

  /** Every step but an arrival gets one request further and holds up no other. */
  lemma StepAdvances(cfg: Config, s: State, a: Action, s': State)
    requires Inv(cfg, s) && Short(cfg, s) && !a.Arrive? && Step(cfg, s, a) == To(s')
    ensures Short(cfg, s') && exists q :: Advances(cfg, s, s', q)
  {
    hide Inv; hide Short; hide Advances; hide Works; hide Advance;
    if a.Dispatch? {
      DispatchAdvances(cfg, s, a.q, a.move, s');
    } else {
      WorkAdvances(cfg, s, a, s');
      hide Step;
      var q :| Advances(cfg, s, s', q) && Works(s, q, s');
      ShortWorks(cfg, s, q, s');
    }
  }

  lemma ArriveShort(cfg: Config, s: State, a: Action, s': State)
    requires Short(cfg, s) && a.Arrive? && Step(cfg, s, a) == To(s')
    ensures Short(cfg, s')
  {
    hide Rs;
  }

  lemma {:induction false} RunShort(cfg: Config, acts: seq<Action>)
    requires cfg.Ok() && Run(cfg, acts).To?
    ensures Short(cfg, Run(cfg, acts).state)
  {
    if acts != [] {
      var before, a := acts[..|acts| - 1], acts[|acts| - 1];
      RunShort(cfg, before);
      RunOk(cfg, before);
      hide Inv; hide Step; hide Short;
      if a.Arrive? {
        ArriveShort(cfg, Run(cfg, before).state, a, Run(cfg, acts).state);
      } else {
        StepAdvances(cfg, Run(cfg, before).state, a, Run(cfg, acts).state);
      }
    }
  }

  /** Without arrivals no more steps can follow than the requests' ranks add up to. */
  lemma {:induction false} StepsLeft(cfg: Config, acts: seq<Action>, more: seq<Action>)
    requires cfg.Ok() && Run(cfg, acts + more).To? && forall a <- more :: !a.Arrive?
    ensures Run(cfg, acts).To?
    ensures var s := Run(cfg, acts).state; |more| <= Total(cfg, s, s.reqs.Keys)
    ensures var s, s' := Run(cfg, acts).state, Run(cfg, acts + more).state;
            Total(cfg, s', s'.reqs.Keys) + |more| <= Total(cfg, s, s.reqs.Keys)
    decreases |more|
  {
    if more == [] {
      assert acts + more == acts;
    } else {
      var k := |more| - 1;
      assert (acts + more)[..|acts + more| - 1] == acts + more[..k] && (acts + more)[|acts + more| - 1] == more[k];
      StepsLeft(cfg, acts, more[..k]);
      var s := Run(cfg, acts + more[..k]).state;
      var s' := Run(cfg, acts + more).state;
      RunOk(cfg, acts + more[..k]);
      RunShort(cfg, acts + more[..k]);
      assert Step(cfg, s, more[k]) == To(s');
      hide Run; hide Inv; hide Step; hide Short; hide Total;
      StepAdvances(cfg, s, more[k], s');
      var q :| Advances(cfg, s, s', q);
      TotalDrops(cfg, s, s', q);
    }
  }

  /** The most steps one request can take part in. */
  function MaxRank(n: nat): nat {
    n * (n + 1) + n + 16
  }

  lemma RankBound(n: nat, p: Phase, running: bool)
    requires p.Scan? ==> |p.todo| <= n && (p.others.Some? ==> |p.others.value| <= n)
    ensures Rank(n, p, running) <= MaxRank(n)
  {
    if p.Scan? && p.others.Some? {
      RowBound(|p.others.value|, n);
    }
  }

  lemma {:induction false} TotalBound(cfg: Config, s: State, qs: set<ReqId>, m: nat)
    requires qs <= s.reqs.Keys && forall q <- qs :: RankOf(cfg, s, q) <= m
    ensures Total(cfg, s, qs) <= |qs| * m
    decreases |qs|
  {
    hide RankOf;
    if qs != {} {
      var q :| q in qs && Total(cfg, s, qs) == RankOf(cfg, s, q) + Total(cfg, s, qs - {q});
      TotalBound(cfg, s, qs - {q}, m);
      OneMoreRow(|qs|, m);
      assert |qs - {q}| == |qs| - 1;
    }
  }

  lemma RanksBounded(cfg: Config, s: State)
    requires Short(cfg, s)
    ensures forall q <- s.reqs :: RankOf(cfg, s, q) <= MaxRank(|cfg.funs|)
  {
    forall q | q in s.reqs
      ensures RankOf(cfg, s, q) <= MaxRank(|cfg.funs|)
    {
      ShortPhase(cfg, s, q);
      hide Rank; hide MaxRank; hide Running;
      RankBound(|cfg.funs|, s.reqs[q].phase, Running(s, q));
    }
  }

  lemma OneMoreRow(k: nat, m: nat)
    requires k > 0
    ensures (k - 1) * m + m == k * m
  {
  }

  /** Once no more requests arrive the system comes to rest: whatever the interleaving, the
      number of steps that can follow is bounded by the requests so far times a square of the
      number of functions. */
  lemma ComesToRest(cfg: Config, acts: seq<Action>, more: seq<Action>)
    requires cfg.Ok() && Run(cfg, acts + more).To? && forall a <- more :: !a.Arrive?
    ensures Run(cfg, acts).To? && |more| <= |Run(cfg, acts).state.reqs| * MaxRank(|cfg.funs|)
  {
    hide MaxRank; hide Total;
    StepsLeft(cfg, acts, more);
    RunShort(cfg, acts);
    var s := Run(cfg, acts).state;
    RanksBounded(cfg, s);
    hide RankOf;
    TotalBound(cfg, s, s.reqs.Keys, MaxRank(|cfg.funs|));
    assert |s.reqs.Keys| == |s.reqs|;
  }
}
