/**
 What a run's answers and queues have to do with its actions: every answer carries the status
 with which the execution of its request ended, and requests and reports are taken up in the
 order in which they came.
 */
module SchedulerAnswers {
  import opened Pools
  import opened Scheduler
  import opened SchedulerHistory
  import opened Tasks
  import opened Wrappers
  import LruSpec
  import TListSpec

  /** In state s action a ends the execution of request q with status st: a worker that executes
      it reports, or a task that has it at hand has run it. */
  predicate Ends(s: State, a: Action, q: ReqId, st: Status) {
    match a
    case FinishW(t, w, status) =>
      && status == st && t in s.tasks && w in s.tasks[t].pool.workers
      && s.tasks[t].pool.workers[w].running == Some(q)
    case Execute(t, status) => status == st && t in s.tasks && s.tasks[t].pc == Pc.At(q)
    case _ => false
  }

  /** After h, a beginning of acts, action a ends the execution of q with status st. */
  ghost predicate EndsAfter(cfg: Config, acts: seq<Action>, h: seq<Action>, a: Action, q: ReqId, st: Status) {
    h + [a] <= acts && Run(cfg, h).To? && Ends(After(cfg, h), a, q, st)
  }

  /** In the course of the run the execution of q ended with status st. */
  ghost predicate Ended(cfg: Config, acts: seq<Action>, q: ReqId, st: Status) {
    exists h, a :: EndsAfter(cfg, acts, h, a, q, st)
  }

  /** The reports that wait for task t. */
  function DoneOf(s: State, t: TListSpec.TId): seq<Done> {
    if t in s.tasks then s.tasks[t].pool.done else []
  }

  /** The requests in the queue of task t. */
  function QueueOf(s: State, t: TListSpec.TId): seq<ReqId> {
    if t in s.tasks then s.tasks[t].queue else []
  }

  /** The reports to task t that action a makes in state s. */
  function ReportedBy(s: State, a: Action, t: TListSpec.TId): seq<Done> {
    if a.FinishW? && a.t == t && t in s.tasks && a.w in s.tasks[t].pool.workers
       && s.tasks[t].pool.workers[a.w].running.Some?
    then [Done(s.tasks[t].pool.workers[a.w].running.value, a.status)]
    else []
  }

  /** The requests that action a puts into the queue of task t in state s. */
  function PushedBy(s: State, a: Action, t: TListSpec.TId): seq<ReqId> {
    if a.Dispatch? && a.move.Push? && a.q in s.reqs && s.reqs[a.q].phase == Reserved(t) then [a.q] else []
  }

  /** A task's done queue takes reports at its end, and the task answers the first one. */
  ghost predicate DoneStep(s: State, a: Action, s': State, t: TListSpec.TId) {
    if a == Collect(t) then
      && DoneOf(s, t) != [] && DoneOf(s', t) == DoneOf(s, t)[1..]
      && s'.answers == s.answers + [Answer(DoneOf(s, t)[0].q, DoneOf(s, t)[0].status)]
    else DoneOf(s', t) == DoneOf(s, t) + ReportedBy(s, a, t)
  }

  /** A task's queue takes requests at its end, and the task takes up the first one. */
  ghost predicate QueueStep(s: State, a: Action, s': State, t: TListSpec.TId) {
    if a == Pop(t) then
      && QueueOf(s, t) != [] && QueueOf(s', t) == QueueOf(s, t)[1..]
      && t in s'.tasks && s'.tasks[t].pc == Pc.At(QueueOf(s, t)[0])
    else QueueOf(s', t) == QueueOf(s, t) + PushedBy(s, a, t)
  }

  /** Only executing and collecting answer. */
  ghost predicate AnswerStep(s: State, a: Action, s': State) {
    match a
    case Collect(t) => true
    case Execute(t, st) =>
      && t in s.tasks && s.tasks[t].pc.At?
      && s'.answers == s.answers + [Answer(s.tasks[t].pc.q, st)]
    case _ => s'.answers == s.answers
  }

  /** All three. */
  ghost predicate Follows(s: State, a: Action, s': State, t: TListSpec.TId) {
    DoneStep(s, a, s', t) && QueueStep(s, a, s', t) && AnswerStep(s, a, s')
  }

  lemma PoolSteps(p: Pool, w: WId, q: ReqId, st: Status)
    ensures p.CanInvoke() ==> p.Invoke(w, q).done == p.done
    ensures p.CanStart(w) ==> p.Start(w).done == p.done
    ensures p.CanFinish(w) ==> p.Finish(w, st).done == p.done + [Done(p.workers[w].running.value, st)]
  {
  }

  lemma PopSteps(cfg: Config, k: Task, f: FId)
    requires f in cfg.funs && cfg.funs[f].concurrency >= 0 && k.queue != [] && PopRequest(cfg, k, f).Next?
    ensures var k' := PopRequest(cfg, k, f).task;
            k'.queue == k.queue[1..] && k'.pool.done == k.pool.done && k'.pc == Pc.At(k.queue[0])
  {
  }

  lemma PopIs(cfg: Config, s: State, u: TListSpec.TId, t: TListSpec.TId)
    requires Step(cfg, s, Pop(u)).To?
    ensures Follows(s, Pop(u), Step(cfg, s, Pop(u)).state, t)
  {
    hide PopRequest;
    PopSteps(cfg, s.tasks[u], s.reqs[s.tasks[u].queue[0]].f);
  }

  lemma CollectIs(cfg: Config, s: State, u: TListSpec.TId, t: TListSpec.TId)
    requires Step(cfg, s, Collect(u)).To?
    ensures Follows(s, Collect(u), Step(cfg, s, Collect(u)).state, t)
  {
  }

  lemma WorkerIs(cfg: Config, s: State, a: Action, t: TListSpec.TId)
    requires (a.InvokeW? || a.StartW? || a.FinishW?) && Step(cfg, s, a).To?
    ensures Follows(s, a, Step(cfg, s, a).state, t)
  {
    hide Pool.Invoke; hide Pool.Start; hide Pool.Finish; hide Pool.CanInvoke;
    var k := s.tasks[a.t];
    match a
    case InvokeW(_, w) => PoolSteps(k.pool, w, k.pc.q, Succeeded);
    case StartW(_, w) => PoolSteps(k.pool, w, 0, Succeeded);
    case FinishW(_, w, st) => PoolSteps(k.pool, w, 0, st);
  }

  lemma DispatchIs(cfg: Config, s: State, q: ReqId, m: Move, t: TListSpec.TId)
    requires Step(cfg, s, Action.Dispatch(q, m)).To?
    ensures Follows(s, Action.Dispatch(q, m), Step(cfg, s, Action.Dispatch(q, m)).state, t)
  {
    hide LruSpec.Access; hide TListSpec.Cursor; hide TListSpec.TakeOne; hide TListSpec.TakeIdle; hide TListSpec.Adjust;
    hide TListSpec.IdleAtBack;
  }

  lemma StepIs(cfg: Config, s: State, a: Action, t: TListSpec.TId)
    requires Step(cfg, s, a).To?
    ensures Follows(s, a, Step(cfg, s, a).state, t)
  {
    match a
    case Pop(u) => PopIs(cfg, s, u, t);
    case Collect(u) => CollectIs(cfg, s, u, t);
    case InvokeW(_, _) => WorkerIs(cfg, s, a, t);
    case StartW(_, _) => WorkerIs(cfg, s, a, t);
    case FinishW(_, _, _) => WorkerIs(cfg, s, a, t);
    case Dispatch(q, m) => DispatchIs(cfg, s, q, m, t);
    case _ => RestIs(cfg, s, a, t);
  }

  lemma RestIs(cfg: Config, s: State, a: Action, t: TListSpec.TId)
    requires (a.Arrive? || a.Create? || a.Execute? || a.Return?) && Step(cfg, s, a).To?
    ensures Follows(s, a, Step(cfg, s, a).state, t)
  {
    hide TListSpec.ReturnOne; hide TListSpec.CountOf;
  }

  /** All answers, and all reports that wait, are of executions that ended so. */
  ghost predicate AllEnded(cfg: Config, acts: seq<Action>)
    requires Run(cfg, acts).To?
  {
    && (forall a <- After(cfg, acts).answers :: Ended(cfg, acts, a.q, a.status))
    && (forall t, d :: d in DoneOf(After(cfg, acts), t) ==> Ended(cfg, acts, d.q, d.status))
  }

  lemma StillEnded(cfg: Config, acts: seq<Action>, acts': seq<Action>, q: ReqId, st: Status)
    requires acts <= acts' && Ended(cfg, acts, q, st)
    ensures Ended(cfg, acts', q, st)
  {
    var h, a :| EndsAfter(cfg, acts, h, a, q, st);
    assert EndsAfter(cfg, acts', h, a, q, st);
  }

  lemma EndsNow(cfg: Config, acts: seq<Action>, q: ReqId, st: Status)
    requires acts != [] && Run(cfg, Before(acts)).To? && Ends(After(cfg, Before(acts)), Last(acts), q, st)
    ensures Ended(cfg, acts, q, st)
  {
    assert Before(acts) + [Last(acts)] == acts;
    assert EndsAfter(cfg, acts, Before(acts), Last(acts), q, st);
  }

  lemma DoneEnded(cfg: Config, acts: seq<Action>, t: TListSpec.TId, d: Done)
    requires Run(cfg, acts).To? && acts != [] && AllEnded(cfg, Before(acts)) && d in DoneOf(After(cfg, acts), t)
    ensures Ended(cfg, acts, d.q, d.status)
  {
    var h, a := Before(acts), Last(acts);
    var s := After(cfg, h);
    StepIs(cfg, s, a, t);
    hide Step; hide AnswerStep; hide QueueStep;
    if d in DoneOf(s, t) {
      StillEnded(cfg, h, acts, d.q, d.status);
    } else {
      assert d in ReportedBy(s, a, t);
      EndsNow(cfg, acts, d.q, d.status);
    }
  }

  lemma AnswerEnded(cfg: Config, acts: seq<Action>, ans: Answer)
    requires Run(cfg, acts).To? && acts != [] && AllEnded(cfg, Before(acts)) && ans in After(cfg, acts).answers
    ensures Ended(cfg, acts, ans.q, ans.status)
  {
    var h, a := Before(acts), Last(acts);
    var s := After(cfg, h);
    StepIs(cfg, s, a, if a.Collect? then a.t else 0);
    hide Step; hide QueueStep; hide Ended;
    if ans in s.answers {
      StillEnded(cfg, h, acts, ans.q, ans.status);
    } else if a.Collect? {
      var d := DoneOf(s, a.t)[0];
      assert d in DoneOf(s, a.t);
      StillEnded(cfg, h, acts, d.q, d.status);
    } else {
      EndsNow(cfg, acts, ans.q, ans.status);
    }
  }

  /** In every run each answer carries the status with which the execution of its request ended:
      in the report of the worker that executed it, or in the task's own thread. */
  lemma {:induction false} AnswersAreTrue(cfg: Config, acts: seq<Action>)
    requires Run(cfg, acts).To?
    ensures AllEnded(cfg, acts)
  {
    hide Step; hide Ended; hide DoneOf;
    if acts == [] {
      NothingYet(cfg);
    } else {
      AnswersAreTrue(cfg, Before(acts));
      hide AllEnded;
      forall ans | ans in After(cfg, acts).answers
        ensures Ended(cfg, acts, ans.q, ans.status)
      {
        AnswerEnded(cfg, acts, ans);
      }
      forall t, d | d in DoneOf(After(cfg, acts), t)
        ensures Ended(cfg, acts, d.q, d.status)
      {
        DoneEnded(cfg, acts, t, d);
      }
      EndedAll(cfg, acts);
    }
  }

  lemma EndedAll(cfg: Config, acts: seq<Action>)
    requires Run(cfg, acts).To?
    requires forall a <- After(cfg, acts).answers :: Ended(cfg, acts, a.q, a.status)
    requires forall t, d :: d in DoneOf(After(cfg, acts), t) ==> Ended(cfg, acts, d.q, d.status)
    ensures AllEnded(cfg, acts)
  {
  }

  lemma NothingYet(cfg: Config)
    ensures AllEnded(cfg, [])
    ensures forall t :: DoneOf(After(cfg, []), t) == [] && QueueOf(After(cfg, []), t) == []
  {
  }

  /* Order. */

  /** The reports made to task t in a run, in order. */
  function Reports(cfg: Config, acts: seq<Action>, t: TListSpec.TId): seq<Done>
    requires Run(cfg, acts).To?
  {
    if acts == [] then []
    else Reports(cfg, Before(acts), t) + ReportedBy(After(cfg, Before(acts)), Last(acts), t)
  }

  /** The answers that task t gives to reports in a run, in order. */
  function Collected(cfg: Config, acts: seq<Action>, t: TListSpec.TId): seq<Done>
    requires Run(cfg, acts).To?
  {
    if acts == [] then []
    else
      var answers := After(cfg, acts).answers;
      Collected(cfg, Before(acts), t)
      + if Last(acts) == Collect(t) && answers != []
        then [Done(answers[|answers| - 1].q, answers[|answers| - 1].status)] else []
  }

  /** The requests pushed to task t in a run, in order. */
  function Pushed(cfg: Config, acts: seq<Action>, t: TListSpec.TId): seq<ReqId>
    requires Run(cfg, acts).To?
  {
    if acts == [] then []
    else Pushed(cfg, Before(acts), t) + PushedBy(After(cfg, Before(acts)), Last(acts), t)
  }

  /** The requests task t takes up in a run, in order: each is the one it then has at hand. */
  function TakenUp(cfg: Config, acts: seq<Action>, t: TListSpec.TId): seq<ReqId>
    requires Run(cfg, acts).To?
  {
    if acts == [] then []
    else
      var s := After(cfg, acts);
      TakenUp(cfg, Before(acts), t)
      + if Last(acts) == Pop(t) && t in s.tasks && s.tasks[t].pc.At? then [s.tasks[t].pc.q] else []
  }

  lemma FirstOff<X>(all: seq<X>, before: seq<X>, s: seq<X>)
    requires all == before + s && s != []
    ensures all == (before + [s[0]]) + s[1..]
  {
  }

  lemma OneOn<X>(all: seq<X>, before: seq<X>, s: seq<X>, more: seq<X>)
    requires all == before + s
    ensures all + more == before + (s + more)
  {
  }

  /** In every run a task answers its workers' reports in the order in which they were made, with
      their statuses; the ones not answered yet are in its done queue. */
  lemma {:induction false} ReportsInOrder(cfg: Config, acts: seq<Action>, t: TListSpec.TId)
    requires Run(cfg, acts).To?
    ensures Reports(cfg, acts, t) == Collected(cfg, acts, t) + DoneOf(After(cfg, acts), t)
  {
    hide Step; hide DoneOf;
    if acts == [] {
      NothingYet(cfg);
    } else {
      var h, a := Before(acts), Last(acts);
      ReportsInOrder(cfg, h, t);
      StepIs(cfg, After(cfg, h), a, t);
      hide QueueStep; hide AnswerStep;
      var s := After(cfg, h);
      if a == Collect(t) {
        FirstOff(Reports(cfg, h, t), Collected(cfg, h, t), DoneOf(s, t));
      } else {
        OneOn(Reports(cfg, h, t), Collected(cfg, h, t), DoneOf(s, t), ReportedBy(s, a, t));
      }
    }
  }

  /** In every run a task takes its requests up in the order in which they were pushed; the ones
      not taken up yet are in its queue. */
  lemma {:induction false} RequestsInOrder(cfg: Config, acts: seq<Action>, t: TListSpec.TId)
    requires Run(cfg, acts).To?
    ensures Pushed(cfg, acts, t) == TakenUp(cfg, acts, t) + QueueOf(After(cfg, acts), t)
  {
    hide Step; hide QueueOf;
    if acts == [] {
      NothingYet(cfg);
    } else {
      var h, a := Before(acts), Last(acts);
      RequestsInOrder(cfg, h, t);
      StepIs(cfg, After(cfg, h), a, t);
      hide DoneStep; hide AnswerStep;
      var s := After(cfg, h);
      if a == Pop(t) {
        FirstOff(Pushed(cfg, h, t), TakenUp(cfg, h, t), QueueOf(s, t));
      } else {
        OneOn(Pushed(cfg, h, t), TakenUp(cfg, h, t), QueueOf(s, t), PushedBy(s, a, t));
      }
    }
  }
}
