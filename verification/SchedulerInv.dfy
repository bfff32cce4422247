/**
 What every step of the scheduler keeps: where a request is agrees with the place its task
 keeps it in, a task's count in its list is what the task owes, and a task is in exactly one
 list unless the holder of the dispatch lock has it in its hands.
 */
module SchedulerInv {
  import opened Pools
  import opened Scheduler
  import opened Sequences
  import opened Tasks
  import opened TListSpec
  import opened Wrappers

  /** The phase of request q as far as it concerns task t; whether the dispatch lock is still
      held does not. */
  ghost function PhaseOn(s: State, q: ReqId, t: TId): Phase {
    if q in s.reqs && s.reqs[q].phase.OnTask() && s.reqs[q].phase.t == t then
      if s.reqs[q].phase.Chosen? then Reserved(t) else s.reqs[q].phase
    else Over
  }

  ghost predicate Wasm(cfg: Config, s: State, q: ReqId) {
    q in s.reqs && s.reqs[q].f in cfg.funs && cfg.funs[s.reqs[q].f].wasm
  }

  ghost predicate InDone(k: Task, q: ReqId) {
    exists i :: 0 <= i < |k.pool.done| && k.pool.done[i].q == q
  }

  /** Worker w is busy with request q. */
  ghost predicate WorksOn(k: Task, w: WId, q: ReqId) {
    w in k.pool.busy && k.pool.Request(w) == q
  }

  /** Request q is where its phase says. */
  ghost predicate Placed(k: Task, t: TId, q: ReqId, p: Phase, wasm: bool) {
    && (q in k.queue <==> p == Queued(t))
    && (k.pc == Pc.At(q) <==> p == Entered(t))
    && (k.pc == Giving(q) <==> p == Answered(t))
    && (forall w :: WorksOn(k, w, q) <==> p == InPool(t, w))
    && (InDone(k, q) <==> p == Finished(t))
    && (q in k.entries <==> (p.Entered? && wasm) || p.InPool? || p.Finished?)
  }

  function B(b: bool): nat {
    if b then 1 else 0
  }

  ghost predicate TaskOk(k: Task) {
    && Distinct(k.queue) && DistinctDone(k.pool.done) && k.pool.Ok()
    && k.iCount == |k.pool.busy| + |k.pool.done| + B(k.pc.At?)
  }

  /** The requests counted for task t that are not in its queue yet. */
  ghost function Waiting(s: State, t: TId): set<ReqId> {
    set q | q in s.reqs && s.reqs[q].phase.ReservedOn(t)
  }

  /** The requests task t owes its list. */
  ghost function Owed(s: State, t: TId): int
    requires t in s.tasks
  {
    |Waiting(s, t)| + |s.tasks[t].queue| + s.tasks[t].iCount + B(s.tasks[t].pc.Giving?)
  }

  /** The count of task t in the list of the function it belongs to, zero without one. */
  ghost function Listed(s: State, t: TId): int {
    if t in s.home && s.home[t] in s.lists then CountOf(s.lists[s.home[t]], t) else 0
  }

  ghost predicate TaskInv(cfg: Config, s: State, t: TId)
    requires t in s.tasks
  {
    && TaskOk(s.tasks[t])
    && (forall q :: Placed(s.tasks[t], t, q, PhaseOn(s, q, t), Wasm(cfg, s, q)))
    && Listed(s, t) == Owed(s, t)
    && (s.tasks[t].iCount != 0 || s.tasks[t].pc != Ready ==> t in s.home && s.tasks[t].workFor == Some(s.home[t]))
  }

  ghost predicate ReqInv(cfg: Config, s: State, q: ReqId)
    requires q in s.reqs
  {
    var p := s.reqs[q].phase;
    && s.reqs[q].f in cfg.funs
    && (p.Locks() <==> s.lock == Some(q))
    && (p.Holding? ==> p.t in s.tasks && p.t !in s.home)
    && (p.OnTask() ==> p.t in s.tasks && p.t in s.home && s.home[p.t] == s.reqs[q].f)
  }

  ghost predicate ListInv(cfg: Config, s: State, f: FId)
    requires f in cfg.funs
  {
    && f in s.lists && Ok(s.lists[f], cfg.funs[f].concurrency)
    && forall t :: Has(s.lists[f], t) <==> t in s.home && s.home[t] == f
  }

  ghost predicate AnswerInv(s: State) {
    && (forall i, j :: 0 <= i < j < |s.answers| ==> s.answers[i].q != s.answers[j].q)
    && (forall q :: AnsweredIn(s, q) <==> q in s.reqs && (s.reqs[q].phase.Answered? || s.reqs[q].phase.Over?))
  }

  ghost predicate AnsweredIn(s: State, q: ReqId) {
    exists i :: 0 <= i < |s.answers| && s.answers[i].q == q
  }

  /** Only the holder of the dispatch lock has a task that is in no list. */
  ghost predicate Held(s: State, t: TId) {
    s.lock.Some? && s.lock.value in s.reqs && s.reqs[s.lock.value].phase == Holding(t)
  }

  ghost predicate AllLists(cfg: Config, s: State) {
    s.lists.Keys == cfg.funs.Keys && forall f <- cfg.funs :: ListInv(cfg, s, f)
  }

  ghost predicate AllTasks(cfg: Config, s: State) {
    forall t <- s.tasks :: TaskInv(cfg, s, t)
  }

  ghost predicate AllReqs(cfg: Config, s: State) {
    forall q <- s.reqs :: ReqInv(cfg, s, q)
  }

  ghost predicate Homes(cfg: Config, s: State) {
    && (forall t <- s.home :: t in s.tasks && s.home[t] in cfg.funs)
    && (forall t <- s.tasks :: t in s.home || Held(s, t))
    && (s.lock.Some? ==> s.lock.value in s.reqs)
  }

  ghost predicate Inv(cfg: Config, s: State) {
    && cfg.Ok() && AllLists(cfg, s) && AllTasks(cfg, s) && AllReqs(cfg, s) && Homes(cfg, s) && AnswerInv(s)
  }

  /* Frames. */

  /** A task is undisturbed by a step that changes neither it, nor its count, nor the requests
      it owes. */
  lemma TaskFrame(cfg: Config, s: State, s': State, t: TId)
    requires t in s.tasks && t in s'.tasks && s'.tasks[t] == s.tasks[t] && TaskInv(cfg, s, t)
    requires (t in s'.home <==> t in s.home) && (t in s.home ==> s'.home[t] == s.home[t])
    requires Listed(s', t) == Listed(s, t)
    requires forall q ::
               PhaseOn(s', q, t) == PhaseOn(s, q, t)
               && (PhaseOn(s, q, t).Entered? ==> Wasm(cfg, s', q) == Wasm(cfg, s, q))
    ensures TaskInv(cfg, s', t)
  {
    forall q
      ensures q in Waiting(s', t) <==> q in Waiting(s, t)
    {
      assert PhaseOn(s', q, t) == PhaseOn(s, q, t);
    }
    assert Waiting(s', t) == Waiting(s, t);
    forall q
      ensures Placed(s.tasks[t], t, q, PhaseOn(s', q, t), Wasm(cfg, s', q))
    {
      assert Placed(s.tasks[t], t, q, PhaseOn(s, q, t), Wasm(cfg, s, q));
    }
  }

  /** A request moves between phases that are the same to every task, and possibly takes or
      releases the dispatch lock. */
  ghost predicate Quiet(s: State, s': State, q: ReqId) {
    && s' == s.(rs := s'.rs, fs := s'.fs, reqs := s'.reqs, lock := s'.lock)
    && q in s'.reqs && s'.reqs == s.reqs[q := s'.reqs[q]]
    && (q in s.reqs ==> s'.reqs[q].f == s.reqs[q].f)
    && (forall t :: PhaseOn(s', q, t) == PhaseOn(s, q, t))
    && (q in s.reqs ==> !s.reqs[q].phase.Holding? && !s.reqs[q].phase.Answered? && !s.reqs[q].phase.Over?)
    && !s'.reqs[q].phase.Holding? && !s'.reqs[q].phase.Answered? && !s'.reqs[q].phase.Over?
    && (s'.reqs[q].phase.Locks() <==> s'.lock == Some(q))
    && (s'.lock == s.lock || (s.lock == None && s'.lock == Some(q)) || (s.lock == Some(q) && s'.lock == None))
  }

  lemma QuietTask(cfg: Config, s: State, s': State, q: ReqId, t: TId)
    requires Quiet(s, s', q) && t in s.tasks && TaskInv(cfg, s, t)
    ensures TaskInv(cfg, s', t)
  {
    hide TaskInv;
    forall x
      ensures PhaseOn(s', x, t) == PhaseOn(s, x, t)
              && (PhaseOn(s, x, t).Entered? ==> Wasm(cfg, s', x) == Wasm(cfg, s, x))
    {
    }
    TaskFrame(cfg, s, s', t);
  }

  lemma QuietTasks(cfg: Config, s: State, s': State, q: ReqId)
    requires Quiet(s, s', q) && AllTasks(cfg, s)
    ensures AllTasks(cfg, s')
  {
    forall t | t in s'.tasks
      ensures TaskInv(cfg, s', t)
    {
      assert TaskInv(cfg, s, t);
      hide TaskInv; hide PhaseOn;
      QuietTask(cfg, s, s', q, t);
    }
  }

  lemma QuietReqs(cfg: Config, s: State, s': State, q: ReqId)
    requires Quiet(s, s', q) && AllReqs(cfg, s) && s'.reqs[q].f in cfg.funs
    ensures AllReqs(cfg, s')
  {
    forall x | x in s'.reqs
      ensures ReqInv(cfg, s', x)
    {
      if x != q {
        assert ReqInv(cfg, s, x);
      } else {
        var p := s'.reqs[q].phase;
        if p.OnTask() {
          assert PhaseOn(s', q, p.t) == PhaseOn(s, q, p.t);
          assert ReqInv(cfg, s, q);
        }
      }
    }
  }

  lemma ListFrame(cfg: Config, s: State, s': State)
    requires s'.lists == s.lists && s'.home == s.home && AllLists(cfg, s)
    ensures AllLists(cfg, s')
  {
    forall f | f in cfg.funs
      ensures ListInv(cfg, s', f)
    {
      assert ListInv(cfg, s, f);
    }
  }

  lemma QuietRest(cfg: Config, s: State, s': State, q: ReqId)
    requires Quiet(s, s', q) && Homes(cfg, s) && AnswerInv(s)
    ensures Homes(cfg, s') && AnswerInv(s')
  {
    assert forall x :: AnsweredIn(s', x) <==> AnsweredIn(s, x);
    forall t | t in s'.tasks && t !in s'.home
      ensures Held(s', t)
    {
      assert Held(s, t);
    }
  }

  lemma QuietOk(cfg: Config, s: State, s': State, q: ReqId)
    requires Inv(cfg, s) && Quiet(s, s', q) && s'.reqs[q].f in cfg.funs
    ensures Inv(cfg, s')
  {
    QuietTasks(cfg, s, s', q);
    QuietReqs(cfg, s, s', q);
    ListFrame(cfg, s, s');
    QuietRest(cfg, s, s', q);
  }

  /* Steps of a task, or of one of its workers: one of its requests moves on. */

  /** Request q moves on within task t, whose count may change with it. */
  ghost predicate Moves(s: State, s': State, t: TId, q: ReqId) {
    && s' == s.(lists := s'.lists, tasks := s'.tasks, reqs := s'.reqs, answers := s'.answers)
    && t in s.tasks && t in s'.tasks && s'.tasks == s.tasks[t := s'.tasks[t]]
    && q in s.reqs && q in s'.reqs && s'.reqs == s.reqs[q := s'.reqs[q]] && s'.reqs[q].f == s.reqs[q].f
    && OnlyOn(s.reqs[q].phase, t) && (OnlyOn(s'.reqs[q].phase, t) || s'.reqs[q].phase.Over?)
    && s.reqs[q].f in s.lists && s'.lists.Keys == s.lists.Keys
    && (forall f <- s.lists :: f != s.reqs[q].f ==> s'.lists[f] == s.lists[f])
    && (forall u :: u != t ==> CountOf(s'.lists[s.reqs[q].f], u) == CountOf(s.lists[s.reqs[q].f], u))
  }

  ghost predicate OnlyOn(p: Phase, t: TId) {
    p.OnTask() && !p.Chosen? && p.t == t
  }

  lemma MovesOther(cfg: Config, s: State, s': State, t: TId, q: ReqId, u: TId)
    requires Moves(s, s', t, q) && u in s.tasks && u != t && TaskInv(cfg, s, u)
    ensures TaskInv(cfg, s', u)
  {
    hide TaskInv; hide CountOf;
    forall x
      ensures PhaseOn(s', x, u) == PhaseOn(s, x, u)
              && (PhaseOn(s, x, u).Entered? ==> Wasm(cfg, s', x) == Wasm(cfg, s, x))
    {
    }
    hide PhaseOn; hide Wasm;
    TaskFrame(cfg, s, s', u);
  }

  lemma MovesTasks(cfg: Config, s: State, s': State, t: TId, q: ReqId)
    requires Moves(s, s', t, q) && AllTasks(cfg, s) && TaskInv(cfg, s', t)
    ensures AllTasks(cfg, s')
  {
    forall u | u in s'.tasks
      ensures TaskInv(cfg, s', u)
    {
      if u != t {
        assert TaskInv(cfg, s, u);
        hide TaskInv;
        MovesOther(cfg, s, s', t, q, u);
      }
    }
  }

  lemma MovesReqs(cfg: Config, s: State, s': State, t: TId, q: ReqId)
    requires Moves(s, s', t, q) && AllReqs(cfg, s) && Homes(cfg, s)
    ensures AllReqs(cfg, s') && Homes(cfg, s')
  {
    assert ReqInv(cfg, s, q);
    hide CountOf;
    forall x | x in s'.reqs
      ensures ReqInv(cfg, s', x)
    {
      assert ReqInv(cfg, s, x);
    }
    forall u | u in s'.tasks && u !in s'.home
      ensures Held(s', u)
    {
      assert Held(s, u);
    }
  }

  lemma MovesLists(cfg: Config, s: State, s': State, t: TId, q: ReqId)
    requires Moves(s, s', t, q) && AllLists(cfg, s)
    requires s.reqs[q].f in cfg.funs && ListInv(cfg, s', s.reqs[q].f)
    ensures AllLists(cfg, s')
  {
    hide CountOf; hide Has; hide Ok;
    forall f | f in cfg.funs
      ensures ListInv(cfg, s', f)
    {
      assert ListInv(cfg, s, f);
    }
  }

  /** Where no list changes the invariant is left to show for the one task and the answers. */
  lemma MovesOk(cfg: Config, s: State, s': State, t: TId, q: ReqId)
    requires Inv(cfg, s) && Moves(s, s', t, q) && s'.lists == s.lists
    requires TaskInv(cfg, s', t) && AnswerInv(s')
    ensures Inv(cfg, s')
  {
    MovesTasks(cfg, s, s', t, q);
    MovesReqs(cfg, s, s', t, q);
    ListFrame(cfg, s, s');
  }

  lemma NoAnswer(s: State, s': State, q: ReqId)
    requires AnswerInv(s) && s'.answers == s.answers && q in s.reqs && q in s'.reqs
             && s'.reqs == s.reqs[q := s'.reqs[q]]
    requires s.reqs[q].phase.Answered? || s.reqs[q].phase.Over? <==>
             s'.reqs[q].phase.Answered? || s'.reqs[q].phase.Over?
    ensures AnswerInv(s')
  {
    assert forall x :: AnsweredIn(s', x) <==> AnsweredIn(s, x);
  }

  lemma OneAnswer(s: State, s': State, q: ReqId, status: Status)
    requires AnswerInv(s) && s'.answers == s.answers + [Answer(q, status)]
    requires q in s.reqs && q in s'.reqs && s'.reqs == s.reqs[q := s'.reqs[q]]
    requires !s.reqs[q].phase.Answered? && !s.reqs[q].phase.Over? && s'.reqs[q].phase.Answered?
    ensures AnswerInv(s')
  {
    assert !AnsweredIn(s, q);
    assert s'.answers[|s.answers|].q == q;
    forall x
      ensures AnsweredIn(s', x) <==> AnsweredIn(s, x) || x == q
    {
      if AnsweredIn(s, x) {
        var i :| 0 <= i < |s.answers| && s.answers[i].q == x;
        assert s'.answers[i].q == x;
      }
    }
  }
}
