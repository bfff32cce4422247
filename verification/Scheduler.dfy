/**
 The scheduler as a state machine. A step is one locked section, or one stretch of a thread
 between two of them, so dispatching threads, task threads and workers interleave freely.
 A request carries the point its dispatch has reached; from the push on, it carries the
 place in its task where it is.
 */
module Scheduler {
  import opened LruSpec
  import opened Pools
  import opened Tasks
  import opened TListSpec
  import opened Wrappers

  datatype Phase =
    | Arrived
    | RListed                                                // its R was accessed in the R list
    | FListed                                                // its F was accessed in R's F list
    | Acquired                                               // holds the dispatch lock
    | NoSpare                                                // F has no task with spare capacity
    | Scan(todo: seq<FId>, others: Option<seq<RId>>)         // functions, then other Rs, left to look at
    | Holding(t: TId)                                        // has a task that is in no list
    | Chosen(t: TId)                                         // counted for t in F's list
    | Reserved(t: TId)                                       // released the dispatch lock
    | Queued(t: TId)
    | Entered(t: TId)                                        // being handled by t's thread
    | InPool(t: TId, w: WId)
    | Finished(t: TId)                                       // in t's done queue
    | Answered(t: TId)                                       // answered, not yet given back
    | Over
  {
    /** Holds the dispatch lock. */
    predicate Locks() {
      Acquired? || NoSpare? || Scan? || Holding? || Chosen?
    }

    /** Counted for task u in its list: chosen but not pushed yet. */
    predicate ReservedOn(u: TId) {
      (Chosen? || Reserved?) && t == u
    }

    /** Counted for a task: chosen, or in its hands. */
    predicate OnTask() {
      Chosen? || Reserved? || Queued? || Entered? || InPool? || Finished? || Answered?
    }
  }

  datatype Req = Req(f: FId, phase: Phase)

  datatype State = State(
    rs: seq<RId>,                     // the R list, least recently dispatched first
    fs: map<RId, seq<FId>>,           // each R's F list, likewise
    lists: map<FId, seq<Entry>>,      // each F's task list
    home: map<TId, FId>,              // auxiliary: the F in whose list a task is
    tasks: map<TId, Task>,
    reqs: map<ReqId, Req>,
    lock: Option<ReqId>,              // the dispatch lock
    answers: seq<Answer>)
  {
    function At(q: ReqId, p: Phase): State
      requires q in reqs
    {
      this.(reqs := reqs[q := reqs[q].(phase := p)])
    }

    function FList(r: RId): seq<FId> {
      if r in fs then fs[r] else []
    }
  }

  /** What a dispatching thread does next, apart from creating a task. */
  datatype Move =
    | AccessR | AccessF | Acquire | GetT
    | SnapshotF | Probe | SnapshotR | NextR
    | AddT | Release | Push

  datatype Action =
    | Arrive(q: ReqId, f: FId)
    | Dispatch(q: ReqId, move: Move)
    | Create(q: ReqId, t: TId)
    | Pop(t: TId) | InvokeW(t: TId, w: WId) | Execute(t: TId, status: Status)
    | StartW(t: TId, w: WId) | FinishW(t: TId, w: WId, status: Status)
    | Collect(t: TId) | Return(t: TId)

  function Init(cfg: Config): State {
    State([], map[], map f | f in cfg.funs :: [], map[], map[], map[], None, [])
  }

  /** Nothing, a step to a new state, or the end of the process by a failed assertion or an
      exception nobody catches. */
  datatype Effect = Disabled | To(state: State) | Crashes(crash: Crash)

  /** What an action does where it is enabled. */
  function Step(cfg: Config, s: State, a: Action): Effect {
    match a
      case Arrive(q, f) => if q !in s.reqs && f in cfg.funs then To(s.(reqs := s.reqs[q := Req(f, Arrived)]))
        else Disabled
      case Create(q, t) => if q in s.reqs then CreateT(s, q, t) else Disabled
      case Pop(t) => if t in s.tasks then DoPop(cfg, s, t) else Disabled
      case InvokeW(t, w) => if t in s.tasks then DoInvoke(cfg, s, t, w) else Disabled
      case Execute(t, status) => if t in s.tasks then DoExecute(cfg, s, t, status) else Disabled
      case StartW(t, w) => if t in s.tasks then DoStart(s, t, w) else Disabled
      case FinishW(t, w, status) => if t in s.tasks then DoFinish(s, t, w, status) else Disabled
      case Collect(t) => if t in s.tasks then DoCollect(s, t) else Disabled
      case Return(t) => if t in s.tasks then DoReturn(cfg, s, t) else Disabled
      case Dispatch(q, m) => if q in s.reqs && s.reqs[q].f in cfg.funs then Advance(cfg, s, q, m) else Disabled
  }

  /** The dispatching thread of request q. */
  function Advance(cfg: Config, s: State, q: ReqId, m: Move): Effect
    requires q in s.reqs && s.reqs[q].f in cfg.funs
  {
    var f := s.reqs[q].f;
    var r := cfg.funs[f].r;
    match (m, s.reqs[q].phase)
    case (AccessR, Arrived) => To(s.(rs := Access(s.rs, r)).At(q, RListed))
    case (AccessF, RListed) => To(s.(fs := s.fs[r := Access(s.FList(r), f)]).At(q, FListed))
    case (Acquire, FListed) => if s.lock == None then To(s.(lock := Some(q)).At(q, Acquired)) else Disabled
    case (GetT, Acquired) => if f in s.lists then To(TakeT(cfg, s, q)) else Disabled
    case (SnapshotF, NoSpare) => To(s.At(q, Scan(s.FList(r), None)))
    case (Probe, Scan(todo, others)) => if todo != [] then To(ProbeF(s, q)) else Disabled
    case (SnapshotR, Scan(todo, None)) => if todo == [] then To(s.At(q, Scan([], Some(s.rs)))) else Disabled
    case (NextR, Scan(todo, Some(rs))) =>
      if todo != [] || rs == [] then Disabled
      else To(s.At(q, Scan(if rs[0] == r then [] else s.FList(rs[0]), Some(rs[1..]))))
    case (AddT, Holding(t)) => if f in s.lists then NewT(cfg, s, q, t) else Disabled
    case (Release, Chosen(t)) => To(s.(lock := None).At(q, Reserved(t)))
    case (Push, Reserved(t)) => if t in s.tasks then To(PushQ(s, q, t)) else Disabled
    case _ => Disabled
  }

  /** F's list gives its fullest task that is not full, if any. */
  function TakeT(cfg: Config, s: State, q: ReqId): State
    requires q in s.reqs && s.reqs[q].f in cfg.funs && s.reqs[q].f in s.lists
  {
    var f := s.reqs[q].f;
    var l, max := s.lists[f], cfg.funs[f].concurrency;
    if Cursor(l, max) < |l| then
      s.(lists := s.lists[f := TakeOne(l, max)]).At(q, Chosen(l[Cursor(l, max)].t))
    else s.At(q, NoSpare)
  }

  /** Looks at the next function's list for an idle task; in its own R a function skips
      itself. */
  function ProbeF(s: State, q: ReqId): State
    requires q in s.reqs && s.reqs[q].phase.Scan? && s.reqs[q].phase.todo != []
  {
    var Scan(todo, others) := s.reqs[q].phase;
    var f := todo[0];
    if (others == None && f == s.reqs[q].f) || f !in s.lists || !IdleAtBack(s.lists[f]) then
      s.At(q, Scan(todo[1..], others))
    else
      var t := s.lists[f][|s.lists[f]| - 1].t;
      s.(lists := s.lists[f := TakeIdle(s.lists[f])], home := s.home - {t}).At(q, Holding(t))
  }

  function CreateT(s: State, q: ReqId, t: TId): Effect
    requires q in s.reqs
  {
    if s.reqs[q].phase == Scan([], Some([])) && t !in s.tasks then
      To(s.(tasks := s.tasks[t := NEW_TASK]).At(q, Holding(t)))
    else Disabled
  }

  /** The held task joins F's list with one request outstanding. */
  function NewT(cfg: Config, s: State, q: ReqId, t: TId): Effect
    requires q in s.reqs && s.reqs[q].f in cfg.funs && s.reqs[q].f in s.lists
  {
    var f := s.reqs[q].f;
    var l, max := s.lists[f], cfg.funs[f].concurrency;
    if Has(l, t) && (Cursor(l, max) == |l| || l[Cursor(l, max)].t != t) then Crashes(ListAssertion)
    else To(s.(lists := s.lists[f := Adjust(l, max, t, 1)], home := s.home[t := f]).At(q, Chosen(t)))
  }

  function PushQ(s: State, q: ReqId, t: TId): State
    requires q in s.reqs && t in s.tasks
  {
    s.(tasks := s.tasks[t := s.tasks[t].(queue := s.tasks[t].queue + [q])]).At(q, Queued(t))
  }

  /** A task's outcome takes effect: request q moves to phase p, or the process ends. */
  function Apply(s: State, t: TId, o: Outcome, q: ReqId, p: Phase): Effect
    requires t in s.tasks
  {
    match o
    case Refused(c) => Crashes(c)
    case Next(k) => if q in s.reqs then To(s.(tasks := s.tasks[t := k]).At(q, p)) else Disabled
  }

  function DoPop(cfg: Config, s: State, t: TId): Effect
    requires t in s.tasks
  {
    var k := s.tasks[t];
    if k.pc != Ready || k.queue == [] then Disabled else
      var q := k.queue[0];
      if q !in s.reqs || s.reqs[q].f !in cfg.funs || cfg.funs[s.reqs[q].f].concurrency < 0 then Disabled
      else Apply(s, t, PopRequest(cfg, k, s.reqs[q].f), q, Entered(t))
  }

  predicate AtWasm(cfg: Config, s: State, k: Task, wasm: bool) {
    k.pc.At? && k.pc.q in s.reqs && s.reqs[k.pc.q].f in cfg.funs && cfg.funs[s.reqs[k.pc.q].f].wasm == wasm
  }

  function DoInvoke(cfg: Config, s: State, t: TId, w: WId): Effect
    requires t in s.tasks
  {
    var k := s.tasks[t];
    if !AtWasm(cfg, s, k, true) || (k.pool.idle == [] && w in k.pool.workers) then Disabled
    else Apply(s, t, InvokeWorker(k, w), k.pc.q, InPool(t, k.pool.Chosen(w)))
  }

  /** A native function runs in the task's own thread. */
  function DoExecute(cfg: Config, s: State, t: TId, status: Status): Effect
    requires t in s.tasks
  {
    var k := s.tasks[t];
    if !AtWasm(cfg, s, k, false) then Disabled
    else Apply(s.(answers := s.answers + [Answer(k.pc.q, status)]), t, Next(EndRequest(k, k.pc.q)), k.pc.q, Answered(t))
  }

  function DoStart(s: State, t: TId, w: WId): Effect
    requires t in s.tasks
  {
    var k := s.tasks[t];
    if k.pool.CanStart(w) then To(s.(tasks := s.tasks[t := k.(pool := k.pool.Start(w))])) else Disabled
  }

  function DoFinish(s: State, t: TId, w: WId, status: Status): Effect
    requires t in s.tasks
  {
    var k := s.tasks[t];
    if !k.pool.CanFinish(w) then Disabled
    else Apply(s, t, Next(k.(pool := k.pool.Finish(w, status))), k.pool.workers[w].running.value, Finished(t))
  }

  function DoCollect(s: State, t: TId): Effect
    requires t in s.tasks
  {
    var k := s.tasks[t];
    if k.pc != Ready || k.pool.done == [] then Disabled else
      var d := k.pool.done[0];
      match PopDone(k)
      case Refused(c) => Crashes(c)
      case Next(k') => Apply(s.(answers := s.answers + [Answer(d.q, d.status)]), t, Next(k'), d.q, Answered(t))
  }

  /** The task gives its request back to the list of the function it works for. */
  function DoReturn(cfg: Config, s: State, t: TId): Effect
    requires t in s.tasks
  {
    var k := s.tasks[t];
    if !k.pc.Giving? || !k.workFor.Some? || k.workFor.value !in s.lists || k.workFor.value !in cfg.funs then
      Disabled else
      var f := k.workFor.value;
      if CountOf(s.lists[f], t) <= 0 then Crashes(ListAssertion)
      else Apply(s.(lists := s.lists[f := ReturnOne(s.lists[f], cfg.funs[f].concurrency, t)]), t,
                 Next(k.(pc := Ready)), k.pc.q, Over)
  }

  /** The effect of a sequence of actions, each of them enabled. */
  function Run(cfg: Config, acts: seq<Action>): Effect {
    if acts == [] then To(Init(cfg))
    else
      var e := Run(cfg, acts[..|acts| - 1]);
      if e.To? then Step(cfg, e.state, acts[|acts| - 1]) else Disabled
  }

  ghost predicate Reachable(cfg: Config, s: State) {
    exists acts :: Run(cfg, acts) == To(s)
  }
}
