/**
 What a run's dispatches did before: the least-recently-used lists are the accesses so far, and
 a task is taken from another function, or created, only after looks that found nothing. The
 looks are at different times, since requests are given back and lists are accessed while a
 dispatching thread looks around.
 */
module SchedulerHistory {
  import opened LruSpec
  import opened Pools
  import opened Scheduler
  import opened SchedulerHandSteps
  import opened SchedulerRuns
  import opened Tasks
  import opened TListSpec
  import opened Wrappers
  import SchedulerInv
  import TaskPools

  /** The state in which a run ends. */
  function After(cfg: Config, acts: seq<Action>): State
    requires Run(cfg, acts).To?
  {
    Run(cfg, acts).state
  }

  /** Of the sequence of actions, the last one and those before it. */
  function Before(acts: seq<Action>): seq<Action>
    requires acts != []
  {
    acts[..|acts| - 1]
  }

  function Last(acts: seq<Action>): Action
    requires acts != []
  {
    acts[|acts| - 1]
  }

  /** The Rs accessed in a run, in order. */
  function RAccesses(cfg: Config, acts: seq<Action>): seq<RId>
    requires Run(cfg, acts).To?
  {
    if acts == [] then []
    else
      var h := RAccesses(cfg, Before(acts));
      match Last(acts)
      case Dispatch(q, AccessR) => h + [cfg.funs[After(cfg, Before(acts)).reqs[q].f].r]
      case _ => h
  }

  /** The functions accessed in the list of r, in order. */
  function FAccesses(cfg: Config, acts: seq<Action>, r: RId): seq<FId>
    requires Run(cfg, acts).To?
  {
    if acts == [] then []
    else
      var h := FAccesses(cfg, Before(acts), r);
      match Last(acts)
      case Dispatch(q, AccessF) =>
        var f := After(cfg, Before(acts)).reqs[q].f;
        if cfg.funs[f].r == r then h + [f] else h
      case _ => h
  }

  /** Only the two accesses of a dispatch change the lists of Rs and of functions. */
  ghost predicate Accesses(cfg: Config, s: State, a: Action, s': State) {
    match a
    case Dispatch(q, AccessR) =>
      q in s.reqs && s.reqs[q].f in cfg.funs && s'.fs == s.fs && s'.rs == Access(s.rs, cfg.funs[s.reqs[q].f].r)
    case Dispatch(q, AccessF) =>
      q in s.reqs && s.reqs[q].f in cfg.funs && s'.rs == s.rs
      && var r := cfg.funs[s.reqs[q].f].r; s'.fs == s.fs[r := Access(s.FList(r), s.reqs[q].f)]
    case _ => s'.rs == s.rs && s'.fs == s.fs
  }

  /** Every request stays, for its function, and looks for a task only by its own steps. */
  ghost predicate Looks(s: State, a: Action, s': State) {
    forall q <- s.reqs ::
      && q in s'.reqs && s'.reqs[q].f == s.reqs[q].f
      && ((a.Dispatch? && a.q == q) || s'.reqs[q] == s.reqs[q] || !IsLooking(s'.reqs[q].phase))
  }

  predicate IsLooking(p: Phase) {
    p.NoSpare? || p.Scan?
  }

  /** New requests are not looking for a task yet. */
  ghost predicate NewOnes(s: State, s': State) {
    forall q <- s'.reqs :: q in s.reqs || s'.reqs[q].phase == Arrived
  }

  lemma StepLooks(cfg: Config, s: State, a: Action)
    requires Step(cfg, s, a).To?
    ensures var s' := Step(cfg, s, a).state; Accesses(cfg, s, a, s') && Looks(s, a, s') && NewOnes(s, s')
  {
    hide Access; hide Cursor; hide TakeOne; hide TakeIdle; hide Adjust; hide ReturnOne; hide IdleAtBack;
    hide PopRequest; hide InvokeWorker; hide EndRequest; hide PopDone;
    if a.Dispatch? {
      AdvanceLooks(cfg, s, a.q, a.move);
    }
    hide Advance;
  }

  lemma AdvanceLooks(cfg: Config, s: State, q: ReqId, m: Move)
    requires q in s.reqs && s.reqs[q].f in cfg.funs && Advance(cfg, s, q, m).To?
    ensures var s', a := Advance(cfg, s, q, m).state, Action.Dispatch(q, m);
            Accesses(cfg, s, a, s') && Looks(s, a, s') && NewOnes(s, s')
  {
    hide Access; hide Cursor; hide TakeOne; hide TakeIdle; hide Adjust; hide IdleAtBack;
  }

  lemma NothingKept<U>()
    ensures KeepLast<U>([]) == []
  {
  }

  /** In every run the list of Rs is the accesses to it with last occurrences kept, oldest
      first, and so is each R's list of functions. */
  lemma {:induction false} ListsFollowAccesses(cfg: Config, acts: seq<Action>)
    requires Run(cfg, acts).To?
    ensures After(cfg, acts).rs == KeepLast(RAccesses(cfg, acts))
    ensures forall r :: After(cfg, acts).FList(r) == KeepLast(FAccesses(cfg, acts, r))
  {
    hide Step; hide KeepLast; hide Access; hide Looks; hide NewOnes;
    if acts == [] {
      NothingKept<RId>();
      NothingKept<FId>();
    } else {
      var h := Before(acts);
      ListsFollowAccesses(cfg, h);
      StepLooks(cfg, After(cfg, h), Last(acts));
      match Last(acts)
      case Dispatch(q, AccessR) =>
        AccessKeepsLast(RAccesses(cfg, h), cfg.funs[After(cfg, h).reqs[q].f].r);
      case Dispatch(q, AccessF) =>
        var f := After(cfg, h).reqs[q].f;
        AccessKeepsLast(FAccesses(cfg, h, cfg.funs[f].r), f);
      case _ =>
    }
  }

  /** After h, a beginning of acts, the dispatch of q takes step m. */
  ghost predicate Took(cfg: Config, acts: seq<Action>, h: seq<Action>, q: ReqId, m: Move) {
    h + [Action.Dispatch(q, m)] <= acts && Run(cfg, h).To? && q in After(cfg, h).reqs
  }

  /** The next function to look at is g. */
  predicate NextIs(p: Phase, g: FId) {
    p.Scan? && p.todo != [] && p.todo[0] == g
  }

  /** The next R to look at is r. */
  predicate NextRIs(p: Phase, r: RId) {
    p.Scan? && p.others.Some? && p.others.value != [] && p.others.value[0] == r
  }

  /** No task in the list of g is idle. */
  ghost predicate NoneIdle(s: State, g: FId) {
    g in s.lists ==> forall t :: CountOf(s.lists[g], t) != 0
  }

  /** All tasks in the list of f are full. */
  ghost predicate AllFull(cfg: Config, s: State, f: FId) {
    f in cfg.funs && f in s.lists && forall t :: Has(s.lists[f], t) ==>
      CountOf(s.lists[f], t) == cfg.funs[f].concurrency
  }

  /** The dispatch of q looked at the list of g when no task in it was idle. */
  ghost predicate FoundNone(cfg: Config, acts: seq<Action>, q: ReqId, g: FId) {
    exists h :: Took(cfg, acts, h, q, Probe) && NextIs(After(cfg, h).reqs[q].phase, g)
                && NoneIdle(After(cfg, h), g)
  }

  /** When the dispatch of q asked for a task of its own function f, all were full. */
  ghost predicate WasFull(cfg: Config, acts: seq<Action>, q: ReqId, f: FId) {
    exists h :: Took(cfg, acts, h, q, GetT) && AllFull(cfg, After(cfg, h), f)
  }

  /** Of the functions in a snapshot those in front of todo, at its end, had no idle task. */
  ghost predicate Looked(cfg: Config, acts: seq<Action>, q: ReqId, snap: seq<FId>, skip: Option<FId>, todo: seq<FId>) {
    && |todo| <= |snap| && snap[|snap| - |todo|..] == todo
    && forall i :: 0 <= i < |snap| - |todo| ==> Some(snap[i]) == skip || FoundNone(cfg, acts, q, snap[i])
  }

  /** Of the functions of the own R, as they were listed at the look, all in front of todo. */
  ghost predicate LookedInR(cfg: Config, acts: seq<Action>, q: ReqId, f: FId, todo: seq<FId>) {
    && f in cfg.funs
    && exists h :: Took(cfg, acts, h, q, SnapshotF)
                   && Looked(cfg, acts, q, After(cfg, h).FList(cfg.funs[f].r), Some(f), todo)
  }

  /** Of the functions of another R x, as they were listed at the look, all in front of todo. */
  ghost predicate LookedIn(cfg: Config, acts: seq<Action>, q: ReqId, x: RId, todo: seq<FId>) {
    exists h :: Took(cfg, acts, h, q, NextR) && NextRIs(After(cfg, h).reqs[q].phase, x)
                && Looked(cfg, acts, q, After(cfg, h).FList(x), None, todo)
  }

  /** Of the Rs in a snapshot those in front of rs, at its end, apart from the own R r; of the
      last of these, its functions in front of todo. */
  ghost predicate LookedRs(cfg: Config, acts: seq<Action>, q: ReqId, snap: seq<RId>, r: RId, todo: seq<FId>,
                           rs: seq<RId>) {
    var n := |snap| - |rs|;
    && 0 <= n && snap[n..] == rs
    && (forall i :: 0 <= i < n - 1 ==> snap[i] == r || LookedIn(cfg, acts, q, snap[i], []))
    && (if 0 < n && snap[n - 1] != r then LookedIn(cfg, acts, q, snap[n - 1], todo) else todo == [])
  }

  /** Of the other Rs, as they were listed at the look, all in front of rs and todo. */
  ghost predicate LookedInOthers(cfg: Config, acts: seq<Action>, q: ReqId, r: RId, todo: seq<FId>, rs: seq<RId>) {
    exists h :: Took(cfg, acts, h, q, SnapshotR) && LookedRs(cfg, acts, q, After(cfg, h).rs, r, todo, rs)
  }

  /** What a dispatch in phase p, looking for a task for f, looked at before. */
  ghost predicate Log(cfg: Config, acts: seq<Action>, q: ReqId, f: FId, p: Phase) {
    match p
    case NoSpare => WasFull(cfg, acts, q, f)
    case Scan(todo, None) => WasFull(cfg, acts, q, f) && LookedInR(cfg, acts, q, f, todo)
    case Scan(todo, Some(rs)) =>
      && f in cfg.funs && WasFull(cfg, acts, q, f) && LookedInR(cfg, acts, q, f, [])
      && LookedInOthers(cfg, acts, q, cfg.funs[f].r, todo, rs)
    case _ => true
  }

  /** What was looked at in a beginning of a run was looked at in the run. */
  lemma StillLooked(cfg: Config, acts: seq<Action>, acts': seq<Action>, q: ReqId, snap: seq<FId>, skip: Option<FId>,
                    todo: seq<FId>)
    requires acts <= acts' && Looked(cfg, acts, q, snap, skip, todo)
    ensures Looked(cfg, acts', q, snap, skip, todo)
  {
    forall i | 0 <= i < |snap| - |todo| && Some(snap[i]) != skip
      ensures FoundNone(cfg, acts', q, snap[i])
    {
      var h :| Took(cfg, acts, h, q, Probe) && NextIs(After(cfg, h).reqs[q].phase, snap[i])
               && NoneIdle(After(cfg, h), snap[i]);
      assert Took(cfg, acts', h, q, Probe);
    }
  }

  lemma StillFull(cfg: Config, acts: seq<Action>, acts': seq<Action>, q: ReqId, f: FId)
    requires acts <= acts' && WasFull(cfg, acts, q, f)
    ensures WasFull(cfg, acts', q, f)
  {
    var h :| Took(cfg, acts, h, q, GetT) && AllFull(cfg, After(cfg, h), f);
    assert Took(cfg, acts', h, q, GetT);
  }

  lemma StillInR(cfg: Config, acts: seq<Action>, acts': seq<Action>, q: ReqId, f: FId, todo: seq<FId>)
    requires acts <= acts' && LookedInR(cfg, acts, q, f, todo)
    ensures LookedInR(cfg, acts', q, f, todo)
  {
    hide Looked;
    var r := cfg.funs[f].r;
    var h :| Took(cfg, acts, h, q, SnapshotF) && Looked(cfg, acts, q, After(cfg, h).FList(r), Some(f), todo);
    assert Took(cfg, acts', h, q, SnapshotF);
    StillLooked(cfg, acts, acts', q, After(cfg, h).FList(r), Some(f), todo);
  }

  lemma StillIn(cfg: Config, acts: seq<Action>, acts': seq<Action>, q: ReqId, x: RId, todo: seq<FId>)
    requires acts <= acts' && LookedIn(cfg, acts, q, x, todo)
    ensures LookedIn(cfg, acts', q, x, todo)
  {
    hide Looked;
    var h :| Took(cfg, acts, h, q, NextR) && NextRIs(After(cfg, h).reqs[q].phase, x)
             && Looked(cfg, acts, q, After(cfg, h).FList(x), None, todo);
    assert Took(cfg, acts', h, q, NextR);
    StillLooked(cfg, acts, acts', q, After(cfg, h).FList(x), None, todo);
  }

  lemma StillRs(cfg: Config, acts: seq<Action>, acts': seq<Action>, q: ReqId, snap: seq<RId>, r: RId, todo: seq<FId>,
                rs: seq<RId>)
    requires acts <= acts' && LookedRs(cfg, acts, q, snap, r, todo, rs)
    ensures LookedRs(cfg, acts', q, snap, r, todo, rs)
  {
    hide LookedIn;
    var n := |snap| - |rs|;
    forall i | 0 <= i < n - 1 && snap[i] != r
      ensures LookedIn(cfg, acts', q, snap[i], [])
    {
      StillIn(cfg, acts, acts', q, snap[i], []);
    }
    if 0 < n && snap[n - 1] != r {
      StillIn(cfg, acts, acts', q, snap[n - 1], todo);
    }
  }

  lemma StillInOthers(cfg: Config, acts: seq<Action>, acts': seq<Action>, q: ReqId, r: RId, todo: seq<FId>,
                      rs: seq<RId>)
    requires acts <= acts' && LookedInOthers(cfg, acts, q, r, todo, rs)
    ensures LookedInOthers(cfg, acts', q, r, todo, rs)
  {
    hide LookedRs;
    var h :| Took(cfg, acts, h, q, SnapshotR) && LookedRs(cfg, acts, q, After(cfg, h).rs, r, todo, rs);
    assert Took(cfg, acts', h, q, SnapshotR);
    StillRs(cfg, acts, acts', q, After(cfg, h).rs, r, todo, rs);
  }

  lemma StillLog(cfg: Config, acts: seq<Action>, acts': seq<Action>, q: ReqId, f: FId, p: Phase)
    requires acts <= acts' && Log(cfg, acts, q, f, p)
    ensures Log(cfg, acts', q, f, p)
  {
    hide WasFull; hide LookedInR; hide LookedInOthers;
    if IsLooking(p) {
      StillFull(cfg, acts, acts', q, f);
      if p.Scan? {
        if p.others == None {
          StillInR(cfg, acts, acts', q, f, p.todo);
        } else {
          StillInR(cfg, acts, acts', q, f, []);
          StillInOthers(cfg, acts, acts', q, cfg.funs[f].r, p.todo, p.others.value);
        }
      }
    }
  }

  /** The run so far, in which the dispatch of q, for f, is in phase p. */
  ghost predicate Here(cfg: Config, acts: seq<Action>, q: ReqId, f: FId, p: Phase) {
    Run(cfg, acts).To? && q in After(cfg, acts).reqs && After(cfg, acts).reqs[q] == Req(f, p) && f in cfg.funs
  }

  /** In every run a list that gives no idle task has none, and one that gives none is full. */
  lemma ListSays(cfg: Config, acts: seq<Action>, f: FId)
    requires cfg.Ok() && Run(cfg, acts).To?
    ensures TaskPools.HasIdle(After(cfg, acts).lists, f) <==> !NoneIdle(After(cfg, acts), f)
    ensures f in cfg.funs ==> f in After(cfg, acts).lists
    ensures f in cfg.funs ==>
              var l, max := After(cfg, acts).lists[f], cfg.funs[f].concurrency; Cursor(l, max) < |l| <==>
                !AllFull(cfg, After(cfg, acts), f)
  {
    RunOk(cfg, acts);
    hide Run; hide CountOf; hide IdleAtBack; hide Cursor; hide Has; hide Ok;
    var s := After(cfg, acts);
    FunOf(cfg, s, f);
    if f in cfg.funs {
      TakeIdleMeaning(s.lists[f], cfg.funs[f].concurrency);
      NoneToTake(s.lists[f], cfg.funs[f].concurrency);
      CursorIn(s.lists[f], cfg.funs[f].concurrency);
    }
  }

  lemma CursorIn(l: seq<Entry>, max: int)
    ensures Cursor(l, max) <= |l|
  {
  }

  lemma LogGetT(cfg: Config, acts: seq<Action>, q: ReqId, f: FId, acts': seq<Action>)
    requires Here(cfg, acts, q, f, Acquired) && AllFull(cfg, After(cfg, acts), f)
             && acts' == acts + [Action.Dispatch(q, GetT)]
    ensures Log(cfg, acts', q, f, NoSpare)
  {
    hide AllFull;
    assert Took(cfg, acts', acts, q, GetT);
  }

  lemma LogSnapshotF(cfg: Config, acts: seq<Action>, q: ReqId, f: FId, acts': seq<Action>)
    requires Here(cfg, acts, q, f, NoSpare) && acts' == acts + [Action.Dispatch(q, SnapshotF)]
    requires Log(cfg, acts, q, f, NoSpare)
    ensures Log(cfg, acts', q, f, Scan(After(cfg, acts).FList(cfg.funs[f].r), None))
  {
    hide WasFull; hide State.FList;
    StillFull(cfg, acts, acts', q, f);
    var snap := After(cfg, acts).FList(cfg.funs[f].r);
    assert Took(cfg, acts', acts, q, SnapshotF);
    assert Looked(cfg, acts', q, snap, Some(f), snap);
  }

  /** One more function was looked at. */
  lemma LookedOn(cfg: Config, acts: seq<Action>, q: ReqId, snap: seq<FId>, skip: Option<FId>, todo: seq<FId>)
    requires Looked(cfg, acts, q, snap, skip, todo) && todo != []
    requires Some(todo[0]) == skip || FoundNone(cfg, acts, q, todo[0])
    ensures Looked(cfg, acts, q, snap, skip, todo[1..])
  {
    hide FoundNone;
    assert snap[|snap| - |todo|] == todo[0];
  }

  lemma InROn(cfg: Config, acts: seq<Action>, q: ReqId, f: FId, todo: seq<FId>)
    requires LookedInR(cfg, acts, q, f, todo) && todo != [] && (todo[0] == f || FoundNone(cfg, acts, q, todo[0]))
    ensures LookedInR(cfg, acts, q, f, todo[1..])
  {
    hide Looked; hide FoundNone;
    var r := cfg.funs[f].r;
    var h :| Took(cfg, acts, h, q, SnapshotF) && Looked(cfg, acts, q, After(cfg, h).FList(r), Some(f), todo);
    LookedOn(cfg, acts, q, After(cfg, h).FList(r), Some(f), todo);
  }

  lemma InOn(cfg: Config, acts: seq<Action>, q: ReqId, x: RId, todo: seq<FId>)
    requires LookedIn(cfg, acts, q, x, todo) && todo != [] && FoundNone(cfg, acts, q, todo[0])
    ensures LookedIn(cfg, acts, q, x, todo[1..])
  {
    hide Looked; hide FoundNone; hide NextRIs;
    var h :| Took(cfg, acts, h, q, NextR) && NextRIs(After(cfg, h).reqs[q].phase, x)
             && Looked(cfg, acts, q, After(cfg, h).FList(x), None, todo);
    LookedOn(cfg, acts, q, After(cfg, h).FList(x), None, todo);
  }

  lemma OthersOn(cfg: Config, acts: seq<Action>, q: ReqId, r: RId, todo: seq<FId>, rs: seq<RId>)
    requires LookedInOthers(cfg, acts, q, r, todo, rs) && todo != [] && FoundNone(cfg, acts, q, todo[0])
    ensures LookedInOthers(cfg, acts, q, r, todo[1..], rs)
  {
    hide FoundNone; hide LookedIn;
    var h :| Took(cfg, acts, h, q, SnapshotR) && LookedRs(cfg, acts, q, After(cfg, h).rs, r, todo, rs);
    var snap := After(cfg, h).rs;
    InOn(cfg, acts, q, snap[|snap| - |rs| - 1], todo);
  }

  lemma LogProbe(cfg: Config, acts: seq<Action>, q: ReqId, f: FId, todo: seq<FId>, others: Option<seq<RId>>,
                 acts': seq<Action>)
    requires Here(cfg, acts, q, f, Scan(todo, others)) && todo != [] && acts' == acts + [Action.Dispatch(q, Probe)]
    requires Log(cfg, acts, q, f, Scan(todo, others))
    requires (others == None && todo[0] == f) || NoneIdle(After(cfg, acts), todo[0])
    ensures Log(cfg, acts', q, f, Scan(todo[1..], others))
  {
    StillLog(cfg, acts, acts', q, f, Scan(todo, others));
    hide WasFull; hide LookedInR; hide LookedInOthers;
    if NoneIdle(After(cfg, acts), todo[0]) {
      assert Took(cfg, acts', acts, q, Probe);
      assert FoundNone(cfg, acts', q, todo[0]);
    }
    hide FoundNone; hide NoneIdle;
    if others == None {
      InROn(cfg, acts', q, f, todo);
    } else {
      OthersOn(cfg, acts', q, cfg.funs[f].r, todo, others.value);
    }
  }

  lemma LogSnapshotR(cfg: Config, acts: seq<Action>, q: ReqId, f: FId, acts': seq<Action>)
    requires Here(cfg, acts, q, f, Scan([], None)) && acts' == acts + [Action.Dispatch(q, SnapshotR)]
    requires Log(cfg, acts, q, f, Scan([], None))
    ensures Log(cfg, acts', q, f, Scan([], Some(After(cfg, acts).rs)))
  {
    StillLog(cfg, acts, acts', q, f, Scan([], None));
    hide WasFull; hide LookedInR;
    assert Took(cfg, acts', acts, q, SnapshotR);
    assert LookedRs(cfg, acts', q, After(cfg, acts).rs, cfg.funs[f].r, [], After(cfg, acts).rs);
  }

  lemma RsNext(cfg: Config, acts: seq<Action>, q: ReqId, snap: seq<RId>, r: RId, rs: seq<RId>, todo: seq<FId>)
    requires LookedRs(cfg, acts, q, snap, r, [], rs) && rs != []
    requires if rs[0] == r then todo == [] else LookedIn(cfg, acts, q, rs[0], todo)
    ensures LookedRs(cfg, acts, q, snap, r, todo, rs[1..])
  {
    hide LookedIn;
    var n := |snap| - |rs|;
    assert snap[n] == rs[0] && snap[n + 1..] == rs[1..];
  }

  /** One more R was taken up. */
  lemma OthersNext(cfg: Config, acts: seq<Action>, q: ReqId, r: RId, rs: seq<RId>, todo: seq<FId>)
    requires LookedInOthers(cfg, acts, q, r, [], rs) && rs != []
    requires if rs[0] == r then todo == [] else LookedIn(cfg, acts, q, rs[0], todo)
    ensures LookedInOthers(cfg, acts, q, r, todo, rs[1..])
  {
    hide LookedIn; hide LookedRs;
    var h :| Took(cfg, acts, h, q, SnapshotR) && LookedRs(cfg, acts, q, After(cfg, h).rs, r, [], rs);
    RsNext(cfg, acts, q, After(cfg, h).rs, r, rs, todo);
  }

  lemma LogNextR(cfg: Config, acts: seq<Action>, q: ReqId, f: FId, rs: seq<RId>, acts': seq<Action>)
    requires Here(cfg, acts, q, f, Scan([], Some(rs))) && rs != [] && acts' == acts + [Action.Dispatch(q, NextR)]
    requires Log(cfg, acts, q, f, Scan([], Some(rs)))
    ensures var r := cfg.funs[f].r;
            Log(cfg, acts', q, f, Scan(if rs[0] == r then [] else After(cfg, acts).FList(rs[0]), Some(rs[1..])))
  {
    StillLog(cfg, acts, acts', q, f, Scan([], Some(rs)));
    hide WasFull; hide LookedInR; hide LookedInOthers; hide State.FList;
    var r := cfg.funs[f].r;
    var todo := if rs[0] == r then [] else After(cfg, acts).FList(rs[0]);
    if rs[0] != r {
      assert Took(cfg, acts', acts, q, NextR);
      assert Looked(cfg, acts', q, todo, None, todo);
    }
    OthersNext(cfg, acts', q, r, rs, todo);
  }

  lemma NothingLogged(cfg: Config, acts: seq<Action>, q: ReqId, f: FId, p: Phase)
    requires !IsLooking(p)
    ensures Log(cfg, acts, q, f, p)
  {
  }

  /** A step of the dispatch of q is logged. */
  lemma LogStep(cfg: Config, acts: seq<Action>, q: ReqId, f: FId, p: Phase, m: Move, acts': seq<Action>)
    requires cfg.Ok() && Here(cfg, acts, q, f, p) && Log(cfg, acts, q, f, p) && Advance(cfg, After(cfg, acts), q, m).To?
    requires acts' == acts + [Action.Dispatch(q, m)]
    ensures var s' := Advance(cfg, After(cfg, acts), q, m).state;
            q in s'.reqs && Log(cfg, acts', q, f, s'.reqs[q].phase)
  {
    hide Log; hide Cursor; hide TakeOne; hide TakeIdle; hide Adjust; hide Access; hide State.FList; hide NoneIdle;
    hide AllFull; hide IdleAtBack;
    var p' := Advance(cfg, After(cfg, acts), q, m).state.reqs[q].phase;
    if !IsLooking(p') {
      NothingLogged(cfg, acts', q, f, p');
    } else {
      if m == GetT {
        ListSays(cfg, acts, f);
        LogGetT(cfg, acts, q, f, acts');
      } else if m == SnapshotF {
        LogSnapshotF(cfg, acts, q, f, acts');
      } else if m == Probe {
        ListSays(cfg, acts, p.todo[0]);
        LogProbe(cfg, acts, q, f, p.todo, p.others, acts');
      } else if m == SnapshotR {
        LogSnapshotR(cfg, acts, q, f, acts');
      } else {
        LogNextR(cfg, acts, q, f, p.others.value, acts');
      }
    }
  }

  /** In every run, what each dispatch looked at so far. */
  lemma {:induction false} Logged(cfg: Config, acts: seq<Action>, q: ReqId)
    requires cfg.Ok() && Run(cfg, acts).To? && q in After(cfg, acts).reqs
    ensures After(cfg, acts).reqs[q].f in cfg.funs
    ensures Log(cfg, acts, q, After(cfg, acts).reqs[q].f, After(cfg, acts).reqs[q].phase)
  {
    hide SchedulerInv.Inv; hide Step; hide Log; hide Accesses;
    var s' := After(cfg, acts);
    var f, p' := s'.reqs[q].f, s'.reqs[q].phase;
    RunOk(cfg, acts);
    KnownFun(cfg, s', q);
    if acts != [] {
      var h, a := Before(acts), Last(acts);
      var s := After(cfg, h);
      StepLooks(cfg, s, a);
      if !IsLooking(p') {
        NothingLogged(cfg, acts, q, f, p');
      } else {
        Logged(cfg, h, q);
        var p := s.reqs[q].phase;
        if s'.reqs[q] == s.reqs[q] {
          StillLog(cfg, h, acts, q, f, p);
        } else {
          assert acts == h + [Action.Dispatch(q, a.move)];
          assert Step(cfg, s, a) == Advance(cfg, s, q, a.move) by { DispatchStep(cfg, s, q, a.move); }
          LogStep(cfg, h, q, f, p, a.move, acts);
        }
      }
    }
  }

  lemma DispatchStep(cfg: Config, s: State, q: ReqId, m: Move)
    requires q in s.reqs && s.reqs[q].f in cfg.funs
    ensures Step(cfg, s, Action.Dispatch(q, m)) == Advance(cfg, s, q, m)
  {
  }

  /** The dispatch of q, for f, listed the functions of its R and looked at all of them but f. */
  ghost predicate FoundNoneInOwn(cfg: Config, acts: seq<Action>, q: ReqId, f: FId) {
    && f in cfg.funs
    && exists h :: Took(cfg, acts, h, q, SnapshotF)
                   && forall g <- After(cfg, h).FList(cfg.funs[f].r) :: g != f ==> FoundNone(cfg, acts, q, g)
  }

  lemma AllOfR(cfg: Config, acts: seq<Action>, q: ReqId, f: FId)
    requires LookedInR(cfg, acts, q, f, [])
    ensures FoundNoneInOwn(cfg, acts, q, f)
  {
    hide FoundNone; hide State.FList;
    var r := cfg.funs[f].r;
    var h :| Took(cfg, acts, h, q, SnapshotF) && Looked(cfg, acts, q, After(cfg, h).FList(r), Some(f), []);
    assert forall g <- After(cfg, h).FList(r) :: g != f ==> FoundNone(cfg, acts, q, g);
  }

  /** The dispatch of q took up R x, listed its functions and looked at all of them. */
  ghost predicate FoundNoneIn(cfg: Config, acts: seq<Action>, q: ReqId, x: RId) {
    exists h :: Took(cfg, acts, h, q, NextR) && NextRIs(After(cfg, h).reqs[q].phase, x)
                && forall g <- After(cfg, h).FList(x) :: FoundNone(cfg, acts, q, g)
  }

  lemma AllOf(cfg: Config, acts: seq<Action>, q: ReqId, x: RId)
    requires LookedIn(cfg, acts, q, x, [])
    ensures FoundNoneIn(cfg, acts, q, x)
  {
    hide FoundNone; hide State.FList; hide NextRIs;
    var h :| Took(cfg, acts, h, q, NextR) && NextRIs(After(cfg, h).reqs[q].phase, x)
             && Looked(cfg, acts, q, After(cfg, h).FList(x), None, []);
    assert forall g <- After(cfg, h).FList(x) :: FoundNone(cfg, acts, q, g);
  }

  lemma AllInFront(cfg: Config, acts: seq<Action>, q: ReqId, snap: seq<RId>, r: RId)
    requires LookedRs(cfg, acts, q, snap, r, [], [])
    ensures forall x <- snap :: x != r ==> FoundNoneIn(cfg, acts, q, x)
  {
    hide LookedIn; hide FoundNoneIn;
    forall x | x in snap && x != r
      ensures FoundNoneIn(cfg, acts, q, x)
    {
      AllOf(cfg, acts, q, x);
    }
  }

  /** The dispatch of q listed the Rs and looked through all of them but r. */
  ghost predicate FoundNoneInOthers(cfg: Config, acts: seq<Action>, q: ReqId, r: RId) {
    exists h :: Took(cfg, acts, h, q, SnapshotR) && forall x <- After(cfg, h).rs :: x != r ==>
      FoundNoneIn(cfg, acts, q, x)
  }

  lemma AllOfRs(cfg: Config, acts: seq<Action>, q: ReqId, r: RId)
    requires LookedInOthers(cfg, acts, q, r, [], [])
    ensures FoundNoneInOthers(cfg, acts, q, r)
  {
    hide LookedRs; hide FoundNoneIn;
    var h :| Took(cfg, acts, h, q, SnapshotR) && LookedRs(cfg, acts, q, After(cfg, h).rs, r, [], []);
    AllInFront(cfg, acts, q, After(cfg, h).rs, r);
  }

  /** In every run a dispatch that takes a task of its own function takes one with the most requests
      among those that are not full, and counts one more for it; it looks elsewhere exactly if all
      are full. */
  lemma OwnTakenIsFullest(cfg: Config, acts: seq<Action>, q: ReqId)
    requires cfg.Ok() && Run(cfg, acts + [Action.Dispatch(q, GetT)]).To?
    ensures Run(cfg, acts).To? && q in After(cfg, acts).reqs && After(cfg, acts).reqs[q].f in cfg.funs
    ensures var s, s' := After(cfg, acts), After(cfg, acts + [Action.Dispatch(q, GetT)]);
            var f := s.reqs[q].f;
            var max := cfg.funs[f].concurrency;
            && f in s.lists && f in s'.lists && q in s'.reqs
            && if AllFull(cfg, s, f) then s'.reqs[q].phase == NoSpare && s'.lists == s.lists
               else && s'.reqs[q].phase.Chosen?
                    && var t := s'.reqs[q].phase.t;
                       && 0 <= CountOf(s.lists[f], t) < max
                       && (forall u :: CountOf(s.lists[f], u) < max ==>
                           CountOf(s.lists[f], u) <= CountOf(s.lists[f], t))
                       && Changed(s.lists[f], s'.lists[f], t, CountOf(s.lists[f], t) + 1)
                       && s'.lists == s.lists[f := s'.lists[f]]
  {
    hide SchedulerInv.Inv; hide CountOf; hide AllFull; hide TakeOne; hide Cursor; hide Changed;
    var acts' := acts + [Action.Dispatch(q, GetT)];
    assert Before(acts') == acts;
    var s := After(cfg, acts);
    var f := s.reqs[q].f;
    Logged(cfg, acts, q);
    ListSays(cfg, acts, f);
    DispatchStep(cfg, s, q, GetT);
    ListIsOk(cfg, acts, f);
    hide Run; hide Step; hide Ok; hide Log;
    if !AllFull(cfg, s, f) {
      TakeOneMeaning(s.lists[f], cfg.funs[f].concurrency);
    }
  }

  lemma ListIsOk(cfg: Config, acts: seq<Action>, f: FId)
    requires cfg.Ok() && Run(cfg, acts).To? && f in cfg.funs
    ensures f in After(cfg, acts).lists && Ok(After(cfg, acts).lists[f], cfg.funs[f].concurrency)
  {
    assert After(cfg, acts) == Run(cfg, acts).state;
    hide *;
    RunOk(cfg, acts);
    ListOf(cfg, After(cfg, acts), f);
  }

  /** In every run, when a dispatch creates a task, all tasks of its function were full when it
      asked for one; then it listed the functions of the R, and each of them but its own had no
      idle task when its list was looked at; then it listed the Rs, and of each but its own it
      listed the functions, and each of them had no idle task when its list was looked at. */
  lemma CreatedAfterLooking(cfg: Config, acts: seq<Action>, q: ReqId, t: TId)
    requires cfg.Ok() && Run(cfg, acts + [Create(q, t)]).To?
    ensures Run(cfg, acts).To? && q in After(cfg, acts).reqs && After(cfg, acts).reqs[q].f in cfg.funs
    ensures var f := After(cfg, acts).reqs[q].f;
            && WasFull(cfg, acts, q, f) && FoundNoneInOwn(cfg, acts, q, f)
            && FoundNoneInOthers(cfg, acts, q, cfg.funs[f].r)
  {
    hide WasFull; hide LookedInR; hide LookedInOthers; hide FoundNoneInOwn; hide FoundNoneInOthers;
    assert Before(acts + [Create(q, t)]) == acts;
    var f := After(cfg, acts).reqs[q].f;
    Logged(cfg, acts, q);
    AllOfR(cfg, acts, q, f);
    AllOfRs(cfg, acts, q, cfg.funs[f].r);
  }

  /** In the last uses of a history, what was last used before the element at n is in front. */
  lemma OlderInFront<U>(hist: seq<U>, snap: seq<U>, n: nat, u: U)
    requires snap == KeepLast(hist) && n < |snap| && u in hist && LastUse(hist, u) < LastUse(hist, snap[n])
    ensures exists i :: 0 <= i < n && snap[i] == u
  {
    OldestFirst(hist);
    hide LastUse;
    assert u in snap;
    hide KeepLast;
    var i :| 0 <= i < |snap| && snap[i] == u;
    assert i < n;
  }

  /** Of the functions in hist, apart from the one to skip, each last accessed before g had no
      idle task when the dispatch of q looked at it. */
  ghost predicate OldestLeft(cfg: Config, acts: seq<Action>, q: ReqId, hist: seq<FId>, skip: Option<FId>, g: FId) {
    && g in hist && Some(g) != skip
    && forall o <- hist :: Some(o) != skip && LastUse(hist, o) < LastUse(hist, g) ==> FoundNone(cfg, acts, q, o)
  }

  /** The same for the Rs in hist, apart from r. */
  ghost predicate OldestR(cfg: Config, acts: seq<Action>, q: ReqId, hist: seq<RId>, r: RId, x: RId) {
    && x in hist && x != r
    && forall o <- hist :: o != r && LastUse(hist, o) < LastUse(hist, x) ==> FoundNoneIn(cfg, acts, q, o)
  }

  lemma LeftOldest(cfg: Config, acts: seq<Action>, q: ReqId, hist: seq<FId>, snap: seq<FId>, skip: Option<FId>,
                   todo: seq<FId>)
    requires snap == KeepLast(hist) && Looked(cfg, acts, q, snap, skip, todo) && todo != [] && Some(todo[0]) != skip
    ensures OldestLeft(cfg, acts, q, hist, skip, todo[0])
  {
    hide FoundNone; hide LastUse;
    var n := |snap| - |todo|;
    assert snap[n] == todo[0];
    assert todo[0] in hist;
    hide KeepLast;
    forall o | o in hist && Some(o) != skip && LastUse(hist, o) < LastUse(hist, todo[0])
      ensures FoundNone(cfg, acts, q, o)
    {
      OlderInFront(hist, snap, n, o);
    }
  }

  lemma LeftOldestR(cfg: Config, acts: seq<Action>, q: ReqId, hist: seq<RId>, snap: seq<RId>, r: RId, todo: seq<FId>,
                    rs: seq<RId>)
    requires snap == KeepLast(hist) && LookedRs(cfg, acts, q, snap, r, todo, rs) && todo != []
    ensures |rs| < |snap| && OldestR(cfg, acts, q, hist, r, snap[|snap| - |rs| - 1])
    ensures LookedIn(cfg, acts, q, snap[|snap| - |rs| - 1], todo)
  {
    hide FoundNoneIn; hide LookedIn; hide LastUse;
    var n := |snap| - |rs| - 1;
    assert snap[n] in hist;
    hide KeepLast;
    forall o | o in hist && o != r && LastUse(hist, o) < LastUse(hist, snap[n])
      ensures FoundNoneIn(cfg, acts, q, o)
    {
      OlderInFront(hist, snap, n, o);
      AllOf(cfg, acts, q, o);
    }
  }

  /** The list of the R of f, as the dispatch of q saw it, has g as the oldest left. */
  ghost predicate FromOwnR(cfg: Config, acts: seq<Action>, q: ReqId, f: FId, g: FId) {
    && f in cfg.funs
    && exists h ::
         Took(cfg, acts, h, q, SnapshotF) && OldestLeft(cfg, acts, q, FAccesses(cfg, h, cfg.funs[f].r), Some(f), g)
  }

  /** The list of R x, as the dispatch of q saw it, has g as the oldest left. */
  ghost predicate FromOneR(cfg: Config, acts: seq<Action>, q: ReqId, x: RId, g: FId) {
    exists h :: Took(cfg, acts, h, q, NextR) && NextRIs(After(cfg, h).reqs[q].phase, x)
                && OldestLeft(cfg, acts, q, FAccesses(cfg, h, x), None, g)
  }

  /** The list of Rs, as the dispatch of q saw it, has an R other than r as the oldest left, and
      that has g as the oldest left. */
  ghost predicate FromOtherR(cfg: Config, acts: seq<Action>, q: ReqId, r: RId, g: FId) {
    exists h, x :: Took(cfg, acts, h, q, SnapshotR) && OldestR(cfg, acts, q, RAccesses(cfg, h), r, x)
                   && FromOneR(cfg, acts, q, x, g)
  }

  lemma OwnROldest(cfg: Config, acts: seq<Action>, q: ReqId, f: FId, todo: seq<FId>)
    requires LookedInR(cfg, acts, q, f, todo) && todo != [] && todo[0] != f
    ensures FromOwnR(cfg, acts, q, f, todo[0])
  {
    hide Looked; hide OldestLeft; hide State.FList;
    var r := cfg.funs[f].r;
    var h :| Took(cfg, acts, h, q, SnapshotF) && Looked(cfg, acts, q, After(cfg, h).FList(r), Some(f), todo);
    ListsFollowAccesses(cfg, h);
    LeftOldest(cfg, acts, q, FAccesses(cfg, h, r), After(cfg, h).FList(r), Some(f), todo);
  }

  lemma OneROldest(cfg: Config, acts: seq<Action>, q: ReqId, x: RId, todo: seq<FId>)
    requires LookedIn(cfg, acts, q, x, todo) && todo != []
    ensures FromOneR(cfg, acts, q, x, todo[0])
  {
    hide Looked; hide OldestLeft; hide State.FList; hide NextRIs;
    var h :| Took(cfg, acts, h, q, NextR) && NextRIs(After(cfg, h).reqs[q].phase, x)
             && Looked(cfg, acts, q, After(cfg, h).FList(x), None, todo);
    ListsFollowAccesses(cfg, h);
    LeftOldest(cfg, acts, q, FAccesses(cfg, h, x), After(cfg, h).FList(x), None, todo);
  }

  lemma OtherROldest(cfg: Config, acts: seq<Action>, q: ReqId, r: RId, todo: seq<FId>, rs: seq<RId>)
    requires LookedInOthers(cfg, acts, q, r, todo, rs) && todo != []
    ensures FromOtherR(cfg, acts, q, r, todo[0])
  {
    hide LookedRs; hide OldestR; hide FromOneR;
    var h :| Took(cfg, acts, h, q, SnapshotR) && LookedRs(cfg, acts, q, After(cfg, h).rs, r, todo, rs);
    ListsFollowAccesses(cfg, h);
    var snap := After(cfg, h).rs;
    LeftOldestR(cfg, acts, q, RAccesses(cfg, h), snap, r, todo, rs);
    OneROldest(cfg, acts, q, snap[|snap| - |rs| - 1], todo);
  }

  /** In every run, when a dispatch takes an idle task from another function g, all tasks of its
      own function were full when it asked for one, and g is, in the order of the accesses up
      to the listing, the first function that was not found without an idle task: of the own R,
      or, when all functions of the own R were found so, of the first other R not all of whose
      functions were. */
  lemma StolenFromOldest(cfg: Config, acts: seq<Action>, q: ReqId)
    requires cfg.Ok() && Run(cfg, acts + [Action.Dispatch(q, Probe)]).To?
             && q in After(cfg, acts + [Action.Dispatch(q, Probe)]).reqs
    requires After(cfg, acts + [Action.Dispatch(q, Probe)]).reqs[q].phase.Holding?
    ensures Run(cfg, acts).To? && q in After(cfg, acts).reqs && After(cfg, acts).reqs[q].phase.Scan?
    ensures After(cfg, acts).reqs[q].phase.todo != []
    ensures var s, s' := After(cfg, acts), After(cfg, acts + [Action.Dispatch(q, Probe)]);
            var f, g, t := s.reqs[q].f, s.reqs[q].phase.todo[0], s'.reqs[q].phase.t;
            && g in s.lists && CountOf(s.lists[g], t) == 0 && f in cfg.funs && WasFull(cfg, acts, q, f)
            && (|| FromOwnR(cfg, acts, q, f, g)
                || (FoundNoneInOwn(cfg, acts, q, f) && FromOtherR(cfg, acts, q, cfg.funs[f].r, g)))
  {
    hide WasFull; hide LookedInR; hide LookedInOthers; hide FoundNoneInOwn; hide FromOwnR; hide FromOtherR;
    hide SchedulerInv.Inv;
    hide CountOf; hide IdleAtBack; hide TakeIdle;
    var acts' := acts + [Action.Dispatch(q, Probe)];
    assert Before(acts') == acts;
    var s := After(cfg, acts);
    var f, p := s.reqs[q].f, s.reqs[q].phase;
    Logged(cfg, acts, q);
    BackIsIdle(cfg, acts, p.todo[0]);
    if p.others == None {
      OwnROldest(cfg, acts, q, f, p.todo);
    } else {
      AllOfR(cfg, acts, q, f);
      OtherROldest(cfg, acts, q, cfg.funs[f].r, p.todo, p.others.value);
    }
  }

  lemma BackIsIdle(cfg: Config, acts: seq<Action>, g: FId)
    requires cfg.Ok() && Run(cfg, acts).To? && TaskPools.HasIdle(After(cfg, acts).lists, g)
    ensures var l := After(cfg, acts).lists[g]; CountOf(l, l[|l| - 1].t) == 0
  {
    RunOk(cfg, acts);
    hide Run; hide CountOf; hide TakeIdle; hide Ok;
    FunOf(cfg, After(cfg, acts), g);
    TakeIdleOk(After(cfg, acts).lists[g], cfg.funs[g].concurrency);
  }
}
