/** Runs that lead a task to an assertion of its worker pool, for every configuration whose
    functions are not compatible. */
module CrashRuns {
  import opened LruSpec
  import opened Pools
  import opened PoolSizing
  import opened Scheduler
  import opened SchedulerInv
  import opened SchedulerLiveness
  import opened SchedulerRuns
  import opened SchedulerTaskSteps
  import opened SchedulerTheorems
  import opened Tasks
  import opened TListSpec
  import opened Wrappers

  lemma Extend(cfg: Config, acts: seq<Action>, a: Action)
    requires Run(cfg, acts).To?
    ensures Run(cfg, acts + [a]) == Step(cfg, Run(cfg, acts).state, a)
  {
    assert (acts + [a])[..|acts|] == acts;
  }

  lemma Then(cfg: Config, s: State, a: Action, s': State)
    requires Reachable(cfg, s) && Step(cfg, s, a) == To(s')
    ensures Reachable(cfg, s')
  {
    var acts :| Run(cfg, acts) == To(s);
    Extend(cfg, acts, a);
  }

  lemma Moved(cfg: Config, s: State, q: ReqId, m: Move, s': State)
    requires Reachable(cfg, s) && q in s.reqs && s.reqs[q].f in cfg.funs && Advance(cfg, s, q, m) == To(s')
    ensures Reachable(cfg, s')
  {
    hide Advance;
    Then(cfg, s, Action.Dispatch(q, m), s');
  }

  /** The state once request q for f, dispatched with nothing else going on, holds the lock. */
  ghost function Locking(cfg: Config, s: State, q: ReqId, f: FId): State
    requires f in cfg.funs
  {
    var r := cfg.funs[f].r;
    s.(rs := Access(s.rs, r), fs := s.fs[r := Access(s.FList(r), f)], reqs := s.reqs[q := Req(f, Acquired)],
       lock := Some(q))
  }

  lemma GetsLock(cfg: Config, s: State, q: ReqId, f: FId)
    requires Reachable(cfg, s) && s.lock == None && q !in s.reqs && f in cfg.funs
    ensures Reachable(cfg, Locking(cfg, s, q, f))
  {
    hide Reachable; hide Access;
    var r := cfg.funs[f].r;
    var s1 := s.(reqs := s.reqs[q := Req(f, Arrived)]);
    Then(cfg, s, Arrive(q, f), s1);
    var s2 := s1.(rs := Access(s.rs, r)).At(q, RListed);
    Moved(cfg, s1, q, AccessR, s2);
    var s3 := s2.(fs := s.fs[r := Access(s.FList(r), f)]).At(q, FListed);
    Moved(cfg, s2, q, AccessF, s3);
    var s4 := s3.(lock := Some(q)).At(q, Acquired);
    Moved(cfg, s3, q, Acquire, s4);
    assert s4.reqs == s.reqs[q := Req(f, Acquired)];
    assert s4 == Locking(cfg, s, q, f);
  }

  /** From holding the lock with a task chosen to having pushed the request. */
  ghost function Pushed(s: State, q: ReqId, t: TId): State
    requires q in s.reqs && t in s.tasks
  {
    s.(lock := None, tasks := s.tasks[t := s.tasks[t].(queue := s.tasks[t].queue + [q])]).At(q, Queued(t))
  }

  lemma Pushes(cfg: Config, s: State, q: ReqId, t: TId)
    requires Reachable(cfg, s) && q in s.reqs && s.reqs[q].f in cfg.funs && s.reqs[q].phase == Chosen(t) && t in s.tasks
    ensures Reachable(cfg, Pushed(s, q, t))
  {
    hide Reachable;
    var s1 := s.(lock := None).At(q, Reserved(t));
    Moved(cfg, s, q, Release, s1);
    var s2 := PushQ(s1, q, t);
    Moved(cfg, s1, q, Push, s2);
    assert s2.reqs == Pushed(s, q, t).reqs;
  }

  /** The state once the dispatch of request q finds no task for f. */
  ghost function Scanning(cfg: Config, s: State, q: ReqId, f: FId, todo: seq<FId>, others: Option<seq<RId>>): State
    requires f in cfg.funs
  {
    Locking(cfg, s, q, f).(reqs := s.reqs[q := Req(f, Scan(todo, others))])
  }

  lemma FindsNone(cfg: Config, s: State, q: ReqId, f: FId)
    requires Reachable(cfg, s) && s.lock == None && q !in s.reqs && f in cfg.funs && f in s.lists && s.lists[f] == []
    ensures Reachable(cfg, Scanning(cfg, s, q, f, Access(s.FList(cfg.funs[f].r), f), None))
  {
    hide Reachable; hide Access;
    var s1 := Locking(cfg, s, q, f);
    GetsLock(cfg, s, q, f);
    var s2 := s1.At(q, NoSpare);
    Moved(cfg, s1, q, GetT, s2);
    var s3 := s2.At(q, Scan(s2.FList(cfg.funs[f].r), None));
    Moved(cfg, s2, q, SnapshotF, s3);
    assert s3.reqs == s.reqs[q := Req(f, Scan(Access(s.FList(cfg.funs[f].r), f), None))];
  }

  /** f is the first function and has its first request pushed to task 0. */
  ghost function Begun(cfg: Config, f: FId): State
    requires f in cfg.funs
  {
    var r := cfg.funs[f].r;
    State([r], map[r := [f]], Init(cfg).lists[f := [Entry(1, 0)]], map[0 := f], map[0 := NEW_TASK.(queue := [0])],
          map[0 := Req(f, Queued(0))], None, [])
  }

  lemma InitReachable(cfg: Config)
    ensures Reachable(cfg, Init(cfg))
  {
    assert Run(cfg, []) == To(Init(cfg));
  }

  lemma AccessNew<U>(s: seq<U>, u: U)
    requires u !in s
    ensures Access(s, u) == s + [u]
    ensures s == [] ==> Access(s, u) == [u]
  {
  }

  lemma ScansItself(cfg: Config, f: FId)
    requires cfg.Ok() && f in cfg.funs
    ensures Reachable(cfg, Scanning(cfg, Init(cfg), 0, f, [], Some([])))
  {
    hide Reachable; hide Access;
    var r := cfg.funs[f].r;
    var s := Init(cfg);
    InitReachable(cfg);
    AccessNew<FId>([], f);
    AccessNew<RId>([], r);
    FindsNone(cfg, s, 0, f);
    var s1 := Scanning(cfg, s, 0, f, [f], None);
    var s2 := Scanning(cfg, s, 0, f, [], None);
    assert [f][1..] == [];
    Moved(cfg, s1, 0, Probe, s2);
    var s3 := Scanning(cfg, s, 0, f, [], Some([r]));
    Moved(cfg, s2, 0, SnapshotR, s3);
    assert [r][1..] == [];
    var s4 := Scanning(cfg, s, 0, f, [], Some([]));
    Moved(cfg, s3, 0, NextR, s4);
  }

  lemma FirstEntry(max: int)
    requires max >= 1
    ensures Adjust([], max, 0, 1) == [Entry(1, 0)]
  {
  }

  lemma BegunIs(cfg: Config, f: FId, s: State)
    requires f in cfg.funs
    requires s.rs == [cfg.funs[f].r] && s.fs == map[][cfg.funs[f].r := [f]]
             && s.lists == Init(cfg).lists[f := [Entry(1, 0)]]
    requires s.home == map[][0 := f] && s.tasks == map[][0 := NEW_TASK][0 := NEW_TASK.(queue := NEW_TASK.queue + [0])]
    requires s.reqs == map[][0 := Req(f, Queued(0))] && s.lock == None && s.answers == []
    ensures s == Begun(cfg, f)
  {
    assert NEW_TASK.queue + [0] == [0];
  }

  lemma BeginReachable(cfg: Config, f: FId)
    requires cfg.Ok() && f in cfg.funs
    ensures Reachable(cfg, Begun(cfg, f))
  {
    hide Reachable; hide Access; hide Adjust;
    ScansItself(cfg, f);
    var s := Scanning(cfg, Init(cfg), 0, f, [], Some([]));
    var s1 := s.(tasks := s.tasks[0 := NEW_TASK]).At(0, Holding(0));
    Then(cfg, s, Create(0, 0), s1);
    FirstEntry(cfg.funs[f].concurrency);
    var s2 := s1.(lists := s.lists[f := [Entry(1, 0)]], home := s.home[0 := f]).At(0, Chosen(0));
    Moved(cfg, s1, 0, AddT, s2);
    Pushes(cfg, s2, 0, 0);
    AccessNew<FId>([], f);
    AccessNew<RId>([], cfg.funs[f].r);
    assert Pushed(s2, 0, 0).reqs == map[][0 := Req(f, Queued(0))];
    BegunIs(cfg, f, Pushed(s2, 0, 0));
  }

  /* The first request runs to its end. */

  /** The only task, serving f, with one request counted as queued, at hand or about to be
      given back. */
  ghost function Serving(cfg: Config, f: FId, iCount: int, entries: set<ReqId>, pc: Pc, p: Pool): Task
    requires f in cfg.funs
  {
    Task(Some(f), Some(cfg.funs[f].r), iCount, [], entries, pc, p)
  }

  ghost function With(cfg: Config, f: FId, k: Task, p: Phase, answers: seq<Answer>): State
    requires f in cfg.funs
  {
    Begun(cfg, f).(tasks := map[0 := k], reqs := map[0 := Req(f, p)], answers := answers)
  }

  /** Task 0 at rest after the first request. */
  ghost function Rested(cfg: Config, f: FId): Task
    requires f in cfg.funs && cfg.funs[f].concurrency >= 0
  {
    var c := cfg.funs[f].concurrency;
    Serving(cfg, f, 0, {}, Ready,
            if cfg.funs[f].wasm then Pool(c, [0], {}, map[0 := Worker([], None)], []) else Pool(c, [], {}, map[], []))
  }

  ghost function Served(cfg: Config, f: FId): State
    requires f in cfg.funs && cfg.funs[f].concurrency >= 0
  {
    With(cfg, f, Rested(cfg, f), Over, [Answer(0, Succeeded)]).(lists := Init(cfg).lists[f := [Entry(0, 0)]])
  }

  lemma Pops(cfg: Config, f: FId)
    requires cfg.Ok() && f in cfg.funs
    ensures var c := cfg.funs[f].concurrency;
            c >= 0 && Reachable(cfg, With(cfg, f, Serving(cfg, f, 1, if cfg.funs[f].wasm then {0}
                                                          else {}, Pc.At(0), Pool(c, [], {}, map[], [])), Entered(0),
                                                            []))
  {
    hide Reachable;
    BeginReachable(cfg, f);
    var s := Begun(cfg, f);
    var c := cfg.funs[f].concurrency;
    assert EMPTY_POOL.Resize(c) == Pool(c, [], {}, map[], []);
    var k := Serving(cfg, f, 1, if cfg.funs[f].wasm then {0} else {}, Pc.At(0), Pool(c, [], {}, map[], []));
    assert s.tasks[0].queue[1..] == [];
    assert PopRequest(cfg, s.tasks[0], f) == Next(k);
    var s' := With(cfg, f, k, Entered(0), []);
    assert s'.reqs == s.reqs[0 := Req(f, Entered(0))] && s'.tasks == s.tasks[0 := k];
    Then(cfg, s, Pop(0), s');
  }

  lemma RunsNative(cfg: Config, f: FId)
    requires cfg.Ok() && f in cfg.funs && !cfg.funs[f].wasm
    ensures var c := cfg.funs[f].concurrency;
            c >= 0 && Reachable(cfg, With(cfg, f, Serving(cfg, f, 0, {}, Giving(0), Pool(c, [], {}, map[], [])),
                                          Answered(0), [Answer(0, Succeeded)]))
  {
    hide Reachable;
    Pops(cfg, f);
    var p := Pool(cfg.funs[f].concurrency, [], {}, map[], []);
    var s := With(cfg, f, Serving(cfg, f, 1, {}, Pc.At(0), p), Entered(0), []);
    var s' := With(cfg, f, Serving(cfg, f, 0, {}, Giving(0), p), Answered(0), [Answer(0, Succeeded)]);
    assert s'.reqs == s.reqs[0 := Req(f, Answered(0))] && s'.tasks == s.tasks[0 := s'.tasks[0]]
           && s'.answers == s.answers + [Answer(0, Succeeded)];
    Then(cfg, s, Execute(0, Succeeded), s');
  }

  /** The one worker through its request, and the task through the report. */
  lemma RunsWasm(cfg: Config, f: FId)
    requires cfg.Ok() && f in cfg.funs && cfg.funs[f].wasm
    ensures var c := cfg.funs[f].concurrency;
            c >= 0 && Reachable(cfg, With(cfg, f, Serving(cfg, f, 1, {0}, Ready,
                                                          Pool(c, [0], {}, map[0 := Worker([], None)],
                                                               [Done(0, Succeeded)])), Finished(0), []))
  {
    hide Reachable;
    Pops(cfg, f);
    var c := cfg.funs[f].concurrency;
    var p0 := Pool(c, [], {}, map[], []);
    var p1 := Pool(c, [], {0}, map[0 := Worker([0], None)], []);
    var p2 := Pool(c, [], {0}, map[0 := Worker([], Some(0))], []);
    var p3 := Pool(c, [0], {}, map[0 := Worker([], None)], [Done(0, Succeeded)]);
    assert p0.Invoke(0, 0) == p1;
    assert [0][1..] == [] && p1.Start(0) == p2;
    assert [] + [0] == [0] && p2.Finish(0, Succeeded) == p3;
    var k0 := Serving(cfg, f, 1, {0}, Pc.At(0), p0);
    var k1 := Serving(cfg, f, 1, {0}, Ready, p1);
    var k2 := Serving(cfg, f, 1, {0}, Ready, p2);
    var k3 := Serving(cfg, f, 1, {0}, Ready, p3);
    WasmSteps(cfg, f, k0, k1, k2, k3);
  }

  /** A task whose one request is finished, and not yet seen by it, reports itself bad. */
  lemma BadWhilePending(cfg: Config, f: FId)
    requires cfg.Ok() && f in cfg.funs && cfg.funs[f].wasm
    ensures exists s :: Reachable(cfg, s) && 0 in s.tasks && !Good(s.tasks[0])
  {
    hide Reachable;
    RunsWasm(cfg, f);
    var c := cfg.funs[f].concurrency;
    var s := With(cfg, f, Serving(cfg, f, 1, {0}, Ready,
                                  Pool(c, [0], {}, map[0 := Worker([], None)], [Done(0, Succeeded)])), Finished(0), []);
    assert Reachable(cfg, s) && !Good(s.tasks[0]);
  }

  lemma WasmSteps(cfg: Config, f: FId, k0: Task, k1: Task, k2: Task, k3: Task)
    requires f in cfg.funs && cfg.funs[f].wasm && Reachable(cfg, With(cfg, f, k0, Entered(0), []))
    requires k0.pc == Pc.At(0) && k0.pool.idle == [] && 0 !in k0.pool.workers && InvokeWorker(k0, 0) == Next(k1)
    requires k1.pool.CanStart(0) && k2 == k1.(pool := k1.pool.Start(0))
    requires k2.pool.CanFinish(0) && k2.pool.workers[0].running == Some(0)
             && k3 == k2.(pool := k2.pool.Finish(0, Succeeded))
    ensures Reachable(cfg, With(cfg, f, k3, Finished(0), []))
  {
    hide Reachable; hide InvokeWorker; hide Pool.Start; hide Pool.Finish;
    var s0 := With(cfg, f, k0, Entered(0), []);
    var s1 := With(cfg, f, k1, InPool(0, 0), []);
    assert s1.reqs == s0.reqs[0 := Req(f, InPool(0, 0))] && s1.tasks == s0.tasks[0 := k1];
    Then(cfg, s0, InvokeW(0, 0), s1);
    WorkerSteps(cfg, f, k1, k2, k3);
  }

  lemma WorkerSteps(cfg: Config, f: FId, k1: Task, k2: Task, k3: Task)
    requires f in cfg.funs && Reachable(cfg, With(cfg, f, k1, InPool(0, 0), []))
    requires k1.pool.CanStart(0) && k2 == k1.(pool := k1.pool.Start(0))
    requires k2.pool.CanFinish(0) && k2.pool.workers[0].running == Some(0)
             && k3 == k2.(pool := k2.pool.Finish(0, Succeeded))
    ensures Reachable(cfg, With(cfg, f, k3, Finished(0), []))
  {
    hide Reachable; hide Pool.Start; hide Pool.Finish;
    var s1 := With(cfg, f, k1, InPool(0, 0), []);
    var s2 := With(cfg, f, k2, InPool(0, 0), []);
    assert s2.tasks == s1.tasks[0 := k2];
    Then(cfg, s1, StartW(0, 0), s2);
    var s3 := With(cfg, f, k3, Finished(0), []);
    assert s3.reqs == s2.reqs[0 := Req(f, Finished(0))] && s3.tasks == s2.tasks[0 := k3];
    Then(cfg, s2, FinishW(0, 0, Succeeded), s3);
  }

  lemma CollectsWasm(cfg: Config, f: FId)
    requires cfg.Ok() && f in cfg.funs && cfg.funs[f].wasm
    ensures var c := cfg.funs[f].concurrency;
            c >= 0 && Reachable(cfg, With(cfg, f, Serving(cfg, f, 0, {}, Giving(0),
                                                          Pool(c, [0], {}, map[0 := Worker([], None)], [])),
                                                            Answered(0), [Answer(0, Succeeded)]))
  {
    hide Reachable;
    RunsWasm(cfg, f);
    var c := cfg.funs[f].concurrency;
    var p := Pool(c, [0], {}, map[0 := Worker([], None)], [Done(0, Succeeded)]);
    var p' := Pool(c, [0], {}, map[0 := Worker([], None)], []);
    var s := With(cfg, f, Serving(cfg, f, 1, {0}, Ready, p), Finished(0), []);
    var k' := Serving(cfg, f, 0, {}, Giving(0), p');
    assert p.done[1..] == [];
    assert PopDone(s.tasks[0]) == Next(k');
    var s' := With(cfg, f, k', Answered(0), [Answer(0, Succeeded)]);
    assert s'.reqs == s.reqs[0 := Req(f, Answered(0))] && s'.tasks == s.tasks[0 := k']
           && s'.answers == s.answers + [Answer(0, Succeeded)];
    Then(cfg, s, Collect(0), s');
  }

  lemma LastReturned(max: int)
    requires max >= 1
    ensures Has([Entry(1, 0)], 0) && CountOf([Entry(1, 0)], 0) == 1
    ensures ReturnOne([Entry(1, 0)], max, 0) == [Entry(0, 0)]
  {
  }

  lemma ServedReachable(cfg: Config, f: FId)
    requires cfg.Ok() && f in cfg.funs
    ensures cfg.funs[f].concurrency >= 0 && Reachable(cfg, Served(cfg, f))
  {
    hide Reachable; hide ReturnOne; hide CountOf;
    var k := Rested(cfg, f).(pc := Giving(0));
    var s := With(cfg, f, k, Answered(0), [Answer(0, Succeeded)]);
    if cfg.funs[f].wasm {
      CollectsWasm(cfg, f);
    } else {
      RunsNative(cfg, f);
    }
    assert Reachable(cfg, s);
    LastReturned(cfg.funs[f].concurrency);
    var s' := Served(cfg, f);
    assert s'.reqs == s.reqs[0 := Req(f, Over)] && s'.tasks == s.tasks[0 := k.(pc := Ready)];
    assert s'.lists == s.lists[f := [Entry(0, 0)]];
    Then(cfg, s, Return(0), s');
  }

  /* The second request is for another function, which takes the idle task over. */

  /** Request 1 for g holds task 0. */
  ghost function Grabbed(cfg: Config, f: FId, g: FId): State
    requires f in cfg.funs && g in cfg.funs && cfg.funs[f].concurrency >= 0
  {
    var s := Served(cfg, f);
    Locking(cfg, s, 1, g).(lists := s.lists[f := []], home := map[], reqs := s.reqs[1 := Req(g, Holding(0))])
  }

  lemma Grabs(cfg: Config, f: FId, g: FId, others: Option<seq<RId>>, rest: seq<FId>)
    requires cfg.Ok() && f in cfg.funs && g in cfg.funs && f != g && cfg.funs[f].concurrency >= 0
    requires Reachable(cfg, Scanning(cfg, Served(cfg, f), 1, g, [f] + rest, others))
    ensures Reachable(cfg, Grabbed(cfg, f, g))
  {
    hide Reachable; hide Access;
    var s := Scanning(cfg, Served(cfg, f), 1, g, [f] + rest, others);
    var s' := Grabbed(cfg, f, g);
    assert s'.reqs == s.reqs[1 := Req(g, Holding(0))];
    assert s.lists[f] == [Entry(0, 0)] && TakeIdle([Entry(0, 0)]) == [];
    assert s'.home == s.home - {0};
    Moved(cfg, s, 1, Probe, s');
  }

  lemma GrabsInR(cfg: Config, f: FId, g: FId)
    requires cfg.Ok() && f in cfg.funs && g in cfg.funs && f != g && cfg.funs[f].r == cfg.funs[g].r
             && cfg.funs[f].concurrency >= 0
    ensures Reachable(cfg, Grabbed(cfg, f, g))
  {
    hide Reachable; hide Access;
    ServedReachable(cfg, f);
    FindsNone(cfg, Served(cfg, f), 1, g);
    AccessNew([f], g);
    Grabs(cfg, f, g, None, [g]);
  }

  lemma FindsNoneInR(cfg: Config, f: FId, g: FId)
    requires cfg.Ok() && f in cfg.funs && g in cfg.funs && cfg.funs[f].r != cfg.funs[g].r
             && cfg.funs[f].concurrency >= 0
    ensures Reachable(cfg, Scanning(cfg, Served(cfg, f), 1, g, [], None))
  {
    hide Reachable; hide Access;
    var s := Served(cfg, f);
    ServedReachable(cfg, f);
    FindsNone(cfg, s, 1, g);
    AccessNew<FId>([], g);
    var s1 := Scanning(cfg, s, 1, g, [g], None);
    var s2 := Scanning(cfg, s, 1, g, [], None);
    assert [g][1..] == [];
    Moved(cfg, s1, 1, Probe, s2);
  }

  lemma GrabsFromOtherR(cfg: Config, f: FId, g: FId)
    requires cfg.Ok() && f in cfg.funs && g in cfg.funs && cfg.funs[f].r != cfg.funs[g].r
             && cfg.funs[f].concurrency >= 0
    ensures Reachable(cfg, Grabbed(cfg, f, g))
  {
    hide Reachable; hide Access;
    FindsNoneInR(cfg, f, g);
    var rf, rg := cfg.funs[f].r, cfg.funs[g].r;
    var s := Served(cfg, f);
    AccessNew([rf], rg);
    assert [rf] + [rg] == [rf, rg];
    var s2 := Scanning(cfg, s, 1, g, [], None);
    var s3 := Scanning(cfg, s, 1, g, [], Some([rf, rg]));
    Moved(cfg, s2, 1, SnapshotR, s3);
    var s4 := Scanning(cfg, s, 1, g, [f], Some([rg]));
    assert [rf, rg][1..] == [rg];
    assert s3.FList(rf) == [f];
    Moved(cfg, s3, 1, NextR, s4);
    assert [f] + [] == [f];
    Grabs(cfg, f, g, Some([rg]), []);
  }

  /** Request 1 for g is queued at task 0. */
  ghost function Taken(cfg: Config, f: FId, g: FId): State
    requires f in cfg.funs && g in cfg.funs && cfg.funs[f].concurrency >= 0
  {
    Grabbed(cfg, f, g).(lists := Init(cfg).lists[f := []][g := [Entry(1, 0)]], home := map[0 := g], lock := None,
                        tasks := map[0 := Rested(cfg, f).(queue := [1])],
                          reqs := map[0 := Req(f, Over), 1 := Req(g, Queued(0))])
  }

  lemma TakesOver(cfg: Config, f: FId, g: FId)
    requires cfg.Ok() && f in cfg.funs && g in cfg.funs && f != g && cfg.funs[f].concurrency >= 0
    ensures Reachable(cfg, Taken(cfg, f, g))
  {
    hide Reachable; hide Access; hide Adjust;
    if cfg.funs[f].r == cfg.funs[g].r {
      GrabsInR(cfg, f, g);
    } else {
      GrabsFromOtherR(cfg, f, g);
    }
    var s := Grabbed(cfg, f, g);
    assert s.lists[g] == [];
    FirstEntry(cfg.funs[g].concurrency);
    var s1 := s.(lists := s.lists[g := [Entry(1, 0)]], home := s.home[0 := g]).At(1, Chosen(0));
    Moved(cfg, s, 1, AddT, s1);
    Pushes(cfg, s1, 1, 0);
    TakenIs(cfg, f, g, Pushed(s1, 1, 0));
  }

  lemma TakenIs(cfg: Config, f: FId, g: FId, s: State)
    requires f in cfg.funs && g in cfg.funs && cfg.funs[f].concurrency >= 0
    requires var s0 := Grabbed(cfg, f, g);
             s == s0.(lists := s0.lists[g := [Entry(1, 0)]], home := s0.home[0 := g], lock := None,
                      tasks := s0.tasks[0 := s0.tasks[0].(queue := s0.tasks[0].queue + [1])], reqs := s.reqs)
    requires s.reqs == Grabbed(cfg, f, g).reqs[1 := Req(g, Queued(0))]
    ensures s == Taken(cfg, f, g)
  {
    assert [] + [1] == [1];
    assert s.lists == Taken(cfg, f, g).lists;
    assert s.tasks == Taken(cfg, f, g).tasks;
    assert s.home == Taken(cfg, f, g).home;
    assert s.reqs == Taken(cfg, f, g).reqs;
  }

  ghost predicate CanCrash(cfg: Config) {
    exists acts :: Run(cfg, acts).Crashes?
  }

  lemma CrashesNext(cfg: Config, s: State, a: Action)
    requires Reachable(cfg, s) && Step(cfg, s, a).Crashes?
    ensures CanCrash(cfg)
  {
    var acts :| Run(cfg, acts) == To(s);
    Extend(cfg, acts, a);
  }

  /** A task that has served a native function, or one that allows several requests at a time
      and has had only one, cannot turn to a function of another R. */
  lemma AcrossRs(cfg: Config, f: FId, g: FId)
    requires cfg.Ok() && f in cfg.funs && g in cfg.funs && cfg.funs[f].r != cfg.funs[g].r
    requires !cfg.funs[f].wasm || cfg.funs[f].concurrency != 1
    ensures CanCrash(cfg)
  {
    hide Reachable; hide CanCrash;
    assert cfg.funs[f].concurrency >= 1;
    TakesOver(cfg, f, g);
    var s := Taken(cfg, f, g);
    assert Serve(cfg, s.tasks[0], g) == Refused(ResizePartial);
    CrashesNext(cfg, s, Pop(0));
  }

  /** Task t serves g with i requests in progress, all of them on workers, in a pool of the
      given size. */
  ghost predicate Loaded(cfg: Config, s: State, g: FId, t: TId, size: int, i: nat) {
    && Reachable(cfg, s) && s.lock == None && g in cfg.funs && g in s.lists && t in s.tasks
    && s.lists[g] == [Entry(i, t)]
    && var k := s.tasks[t];
       k.workFor == Some(g) && k.queue == [] && k.pc == Ready && k.pool.size == size && |k.pool.busy| == i
  }

  ghost function Queueing(cfg: Config, s: State, q: ReqId, g: FId, t: TId, i: nat): State
    requires g in cfg.funs && g in s.lists && t in s.tasks
  {
    Locking(cfg, s, q, g).(lists := s.lists[g := [Entry(i + 1, t)]], lock := None,
                           tasks := s.tasks[t := s.tasks[t].(queue := [q])], reqs := s.reqs[q := Req(g, Queued(t))])
  }

  lemma OneTaken(t: TId, i: nat, max: int)
    requires i < max
    ensures Cursor([Entry(i, t)], max) == 0 && TakeOne([Entry(i, t)], max) == [Entry(i + 1, t)]
  {
  }

  lemma Queues(cfg: Config, s: State, q: ReqId, g: FId, t: TId, size: int, i: nat)
    requires Loaded(cfg, s, g, t, size, i) && i < cfg.funs[g].concurrency && q !in s.reqs
    ensures Reachable(cfg, Queueing(cfg, s, q, g, t, i))
  {
    hide Reachable; hide Access; hide TakeOne; hide Cursor;
    GetsLock(cfg, s, q, g);
    OneTaken(t, i, cfg.funs[g].concurrency);
    var s1 := Locking(cfg, s, q, g);
    var s2 := s1.(lists := s.lists[g := [Entry(i + 1, t)]]).At(q, Chosen(t));
    Moved(cfg, s1, q, GetT, s2);
    Pushes(cfg, s2, q, t);
    assert [] + [q] == [q];
    assert Pushed(s2, q, t).reqs == Queueing(cfg, s, q, g, t, i).reqs;
  }

  /** Task t has taken request q off its queue. */
  ghost function AtHand(cfg: Config, s: State, q: ReqId, g: FId, t: TId): State
    requires g in cfg.funs && t in s.tasks && q in s.reqs
  {
    var k := s.tasks[t];
    s.(tasks := s.tasks[t := k.(queue := [], iCount := k.iCount + 1, pc := Pc.At(q), entries := k.entries + {q},
                                workFor := Some(g))]).At(q, Entered(t))
  }

  lemma PopsNext(cfg: Config, s: State, q: ReqId, g: FId, t: TId)
    requires cfg.Ok() && Reachable(cfg, s) && g in cfg.funs && cfg.funs[g].wasm && t in s.tasks && q in s.reqs
             && s.reqs[q].f == g
    requires s.tasks[t].queue == [q] && s.tasks[t].pc == Ready
    requires s.tasks[t].workFor == Some(g) || (s.tasks[t].iCount == 0 && s.tasks[t].resource == Some(cfg.funs[g].r))
    ensures Reachable(cfg, AtHand(cfg, s, q, g, t))
  {
    hide Reachable;
    assert [q][1..] == [];
    assert cfg.funs[g].concurrency >= 1;
    Then(cfg, s, Pop(t), AtHand(cfg, s, q, g, t));
  }

  /** With all workers of the pool busy the next request finds none; otherwise it makes one
      more of them busy. */
  lemma InvokesNext(cfg: Config, s: State, q: ReqId, g: FId, t: TId, size: int, i: nat) returns (s': State)
    requires cfg.Ok() && Reachable(cfg, s) && s.lock == None && g in cfg.funs && cfg.funs[g].wasm && g in s.lists
             && t in s.tasks
    requires s.lists[g] == [Entry(i + 1, t)] && q in s.reqs && s.reqs[q].f == g
    requires var k := s.tasks[t];
             k.workFor == Some(g) && k.queue == [] && k.pc == Pc.At(q) && k.pool.size == size && |k.pool.busy| == i
    ensures i < size ==> Loaded(cfg, s', g, t, size, i + 1)
    ensures i >= size ==> CanCrash(cfg)
  {
    hide Reachable; hide Inv; hide CanCrash;
    var k := s.tasks[t];
    ReachableOk(cfg, s);
    TaskIsOk(cfg, s, t);
    var w := Fresh(k.pool.workers.Keys);
    s' := s;
    if k.pool.CanInvoke() {
      var v := k.pool.Chosen(w);
      assert |k.pool.busy + {v}| == i + 1;
      s' := s.(tasks := s.tasks[t := k.(pc := Ready, pool := k.pool.Invoke(w, q))]).At(q, InPool(t, v));
      hide TaskOk;
      Then(cfg, s, InvokeW(t, w), s');
    } else {
      CrashesNext(cfg, s, InvokeW(t, w));
    }
  }

  lemma LoadMore(cfg: Config, s: State, g: FId, t: TId, size: int, i: nat) returns (s': State)
    requires cfg.Ok() && Loaded(cfg, s, g, t, size, i) && i < cfg.funs[g].concurrency && cfg.funs[g].wasm
    ensures i < size ==> Loaded(cfg, s', g, t, size, i + 1)
    ensures i >= size ==> CanCrash(cfg)
  {
    hide Reachable; hide Access; hide CanCrash; hide Config.Ok;
    var q := Fresh(s.reqs.Keys);
    Queues(cfg, s, q, g, t, size, i);
    var s1 := Queueing(cfg, s, q, g, t, i);
    PopsNext(cfg, s1, q, g, t);
    s' := InvokesNext(cfg, AtHand(cfg, s1, q, g, t), q, g, t, size, i);
  }

  lemma {:induction false} Overload(cfg: Config, s: State, g: FId, t: TId, size: int, i: nat)
    requires cfg.Ok() && Loaded(cfg, s, g, t, size, i) && i <= size < cfg.funs[g].concurrency && cfg.funs[g].wasm
    ensures CanCrash(cfg)
    decreases size - i
  {
    hide CanCrash;
    var s' := LoadMore(cfg, s, g, t, size, i);
    if i < size {
      Overload(cfg, s', g, t, size, i + 1);
    }
  }

  /** A task whose pool was sized for a function of the same R that allows fewer requests at a
      time runs out of workers. */
  lemma WithinR(cfg: Config, f: FId, g: FId)
    requires cfg.Ok() && f in cfg.funs && g in cfg.funs && cfg.funs[f].r == cfg.funs[g].r && cfg.funs[g].wasm
    requires cfg.funs[f].concurrency < cfg.funs[g].concurrency
    ensures CanCrash(cfg)
  {
    hide Reachable; hide CanCrash; hide Access;
    var size := cfg.funs[f].concurrency;
    assert size >= 1;
    TakesOver(cfg, f, g);
    var s := Taken(cfg, f, g);
    PopsNext(cfg, s, 1, g, 0);
    var s' := InvokesNext(cfg, AtHand(cfg, s, 1, g, 0), 1, g, 0, size, 0);
    Overload(cfg, s', g, 0, size, 1);
  }

  /** The assertions of the worker pools, and so all assertions of the scheduler, hold in every
      run exactly for the configurations whose functions are compatible. */
  lemma NeverCrashesIffCompatible(cfg: Config)
    requires cfg.Ok()
    ensures (forall acts :: !Run(cfg, acts).Crashes?) <==> Compatible(cfg)
  {
    hide CanCrash; hide Config.Ok;
    if Compatible(cfg) {
      forall acts
        ensures !Run(cfg, acts).Crashes?
      {
        CompatibleNeverCrashes(cfg, acts);
      }
    } else {
      IncompatibleCrashes(cfg);
      CrashWitness(cfg);
    }
  }

  lemma CrashWitness(cfg: Config)
    requires CanCrash(cfg)
    ensures !(forall acts :: !Run(cfg, acts).Crashes?)
  {
  }

  lemma IncompatibleCrashes(cfg: Config)
    requires cfg.Ok() && !Compatible(cfg)
    ensures CanCrash(cfg)
  {
    hide CanCrash; hide Config.Ok;
    if f, g :| f in cfg.funs && g in cfg.funs && cfg.funs[f].r == cfg.funs[g].r && cfg.funs[g].wasm
               && cfg.funs[g].concurrency > cfg.funs[f].concurrency {
      WithinR(cfg, f, g);
    } else {
      var f, g :| f in cfg.funs && g in cfg.funs && cfg.funs[f].r != cfg.funs[g].r
        && !(cfg.funs[f].wasm && cfg.funs[f].concurrency == 1);
      AcrossRs(cfg, f, g);
    }
  }
}
