/**
 A task thread as the code keeps it. Its methods are proved to take the steps of `Tasks`,
 one after the other; how these interleave with dispatching threads and workers is the
 subject of `Scheduler`.
 */
module TaskThreads {
  import opened Pools
  import opened Sequences
  import opened Tasks
  import opened TListSpec
  import opened WorkerPools
  import opened Wrappers

  /** A task with the lists it gives requests back to and the responses it has sent. */
  datatype Turn = Turn(task: Task, lists: map<FId, seq<Entry>>, sent: seq<Answer>) | Stopped(crash: Crash)

  ghost predicate Serves(cfg: Config, k: Task, lists: map<FId, seq<Entry>>) {
    k.workFor.Some? && k.workFor.value in lists && k.workFor.value in cfg.funs
  }

  /** The end of request q: it is no longer counted and given back to its list. */
  function GiveBack(cfg: Config, t: TId, k: Task, lists: map<FId, seq<Entry>>, sent: seq<Answer>, q: ReqId): Turn
    requires Serves(cfg, k, lists)
  {
    var f := k.workFor.value;
    if CountOf(lists[f], t) <= 0 then Stopped(ListAssertion)
    else Turn(EndRequest(k, q).(pc := Ready), lists[f := ReturnOne(lists[f], cfg.funs[f].concurrency, t)], sent)
  }

  /** Takes one finished request off the done queue and ends it. */
  function CollectOne(cfg: Config, t: TId, k: Task, lists: map<FId, seq<Entry>>, sent: seq<Answer>): Turn
    requires Serves(cfg, k, lists) && k.pool.done != []
  {
    var d := k.pool.done[0];
    match PopDone(k)
    case Refused(c) => Stopped(c)
    case Next(_) =>
      GiveBack(cfg, t, k.(entries := k.entries - {d.q}, pool := k.pool.(done := k.pool.done[1..])), lists,
               sent + [Answer(d.q, d.status)], d.q)
  }

  /** Empties the done queue. */
  function CollectAll(cfg: Config, t: TId, k: Task, lists: map<FId, seq<Entry>>, sent: seq<Answer>): Turn
    requires Serves(cfg, k, lists)
    decreases |k.pool.done|
  {
    if k.pool.done == [] then Turn(k, lists, sent)
    else match CollectOne(cfg, t, k, lists, sent)
         case Stopped(c) => Stopped(c)
         case Turn(k', lists', sent') => CollectAll(cfg, t, k', lists', sent')
  }

  /** Takes one request off the queue: a wasm function goes to a worker with the fresh id gid,
      if one must be created, a native one runs here and ends as status says. */
  function HandleOne(cfg: Config, t: TId, k: Task, lists: map<FId, seq<Entry>>, sent: seq<Answer>, f: FId,
                     status: Status, gid: WId): Turn
    requires k.queue != [] && f in cfg.funs && cfg.funs[f].concurrency >= 0 && f in lists
  {
    match PopRequest(cfg, k, f)
    case Refused(c) => Stopped(c)
    case Next(k') =>
      if cfg.funs[f].wasm then
        match InvokeWorker(k', gid)
        case Refused(c) => Stopped(c)
        case Next(k'') => Turn(k'', lists, sent)
      else GiveBack(cfg, t, k', lists, sent + [Answer(k.queue[0], status)], k.queue[0])
  }

  ghost predicate Known(cfg: Config, lists: map<FId, seq<Entry>>, funs: map<ReqId, FId>, queue: seq<ReqId>) {
    forall q <- queue :: q in funs && funs[q] in cfg.funs && cfg.funs[funs[q]].concurrency >= 0 && funs[q] in lists
  }

  /** Empties the queue. */
  function HandleAll(cfg: Config, t: TId, k: Task, lists: map<FId, seq<Entry>>, sent: seq<Answer>,
                     funs: map<ReqId, FId>, outcome: ReqId -> Status, gid: ReqId -> WId): Turn
    requires Known(cfg, lists, funs, k.queue)
    decreases |k.queue|
  {
    if k.queue == [] then Turn(k, lists, sent)
    else
      var q := k.queue[0];
      match HandleOne(cfg, t, k, lists, sent, funs[q], outcome(q), gid(q))
      case Stopped(c) => Stopped(c)
      case Turn(k', lists', sent') =>
        assert forall x <- k'.queue :: x in k.queue;
        HandleAll(cfg, t, k', lists', sent', funs, outcome, gid)
  }

  class TaskThread {
    const cfg: Config
    const id: TId
    var workFor: Option<FId>
    var currentResource: Option<RId>
    var iCount: int
    var iQueue: seq<ReqId>
    var invokeEntryMap: map<ReqId, FId>
    const wp: WorkerPool
    var lists: map<FId, seq<Entry>>     // the task lists of the functions
    var sent: seq<Answer>

    constructor (cfg: Config, id: TId, lists: map<FId, seq<Entry>>)
      ensures wp.Valid() && Value() == NEW_TASK && this.cfg == cfg && this.id == id && this.lists == lists && sent == []
    {
      this.cfg, this.id, this.lists := cfg, id, lists;
      workFor, currentResource, iCount, iQueue, invokeEntryMap, sent := None, None, 0, [], map[], [];
      wp := new WorkerPool(0);
    }

    ghost function Value(): Task
      reads this, wp, wp.all.Values
    {
      Task(workFor, currentResource, iCount, iQueue, invokeEntryMap.Keys, Ready, wp.Value())
    }

    /** Turns to function f; changed is whether the task served another one. */
    method CheckI(f: FId) returns (changed: bool, failed: Option<Crash>)
      requires wp.Valid()
      modifies this`workFor
      ensures failed == if old(workFor) !in {None, Some(f)} && iCount != 0 then Some(TwoFunctions) else None
      ensures workFor == if failed == None then Some(f) else old(workFor)
      ensures changed == (workFor != old(workFor))
    {
      if workFor == Some(f) {
        return false, None;
      } else if workFor == None || iCount == 0 {
        workFor := Some(f);
        return true, None;
      }
      return false, Some(TwoFunctions);
    }

    method AdjustResource(f: FId) returns (failed: Option<Crash>)
      requires wp.Valid() && wp.Value().Ok() && f in cfg.funs && cfg.funs[f].concurrency >= 0
      modifies this`workFor, this`currentResource, wp
      ensures wp.Valid() && wp.all.Values <= old(wp.all.Values) && wp.all.Keys <= old(wp.all).Keys
      ensures match Serve(cfg, old(Value()), f)
              case Refused(c) => failed == Some(c)
              case Next(k) => failed == None && Value() == k
    {
      hide Pool.Ok; hide Pool.Resize;
      var changed;
      changed, failed := CheckI(f);
      if failed.Some? || !changed || currentResource == Some(cfg.funs[f].r) {
        return;
      }
      currentResource := Some(cfg.funs[f].r);
      failed := wp.Resize(cfg.funs[f].concurrency, cfg.maxConcurrency);
    }

    /** The request at hand ends. */
    method DoChangeICount(q: ReqId) returns (failed: Option<Crash>)
      requires wp.Valid() && Serves(cfg, Value(), lists)
      modifies this`iCount, this`lists
      ensures lists.Keys == old(lists).Keys
      ensures match GiveBack(cfg, id, old(Value()), old(lists), sent, q)
              case Stopped(c) => failed == Some(c)
              case Turn(k, l, s) => failed == None && Value() == k && lists == l && sent == s
    {
      hide ReturnOne;
      var f := workFor.value;
      iCount := iCount - 1;
      if CountOf(lists[f], id) <= 0 {
        return Some(ListAssertion);
      }
      lists := lists[f := ReturnOne(lists[f], cfg.funs[f].concurrency, id)];
      failed := None;
    }

    /** Takes one finished request off the done queue. */
    method HandleDone() returns (failed: Option<Crash>)
      requires wp.Valid() && Serves(cfg, Value(), lists) && wp.doneQueue != []
      modifies this, wp`doneQueue
      ensures wp.Valid() && workFor == old(workFor) && lists.Keys == old(lists).Keys
      ensures match CollectOne(cfg, id, old(Value()), old(lists), old(sent))
              case Stopped(c) => failed == Some(c)
              case Turn(k, l, s) => failed == None && Value() == k && lists == l && sent == s
      ensures wp.doneQueue == old(wp.doneQueue)[1..]
    {
      hide GiveBack;
      ghost var was := Value();
      var info := wp.doneQueue[0];
      wp.doneQueue := wp.doneQueue[1..];
      if info.q !in invokeEntryMap {
        return Some(NoEntry);
      }
      invokeEntryMap := invokeEntryMap - {info.q};
      sent := sent + [Answer(info.q, info.status)];
      assert Value() == was.(entries := was.entries - {info.q}, pool := was.pool.(done := was.pool.done[1..]));
      failed := DoChangeICount(info.q);
    }

    /** Empties the done queue. */
    method HandleInvokeDoneMsgQueue() returns (failed: Option<Crash>)
      requires wp.Valid() && Serves(cfg, Value(), lists)
      modifies this, wp`doneQueue
      ensures match CollectAll(cfg, id, old(Value()), old(lists), old(sent))
              case Stopped(c) => failed == Some(c)
              case Turn(k, l, s) => failed == None && Value() == k && lists == l && sent == s
    {
      hide CollectOne; hide Value; hide WorkerPool.Value;
      ghost var k, l, s := Value(), lists, sent;
      assert Value().pool.done == wp.doneQueue by { DoneIs(); }
      while wp.doneQueue != []
        invariant wp.Valid() && Serves(cfg, Value(), lists) && Value().pool.done == wp.doneQueue
        invariant CollectAll(cfg, id, Value(), lists, sent) == CollectAll(cfg, id, k, l, s)
        decreases |wp.doneQueue|
      {
        DoneIs();
        failed := HandleDone();
        if failed.Some? {
          return;
        }
        DoneIs();
      }
      failed := None;
    }

    lemma DoneIs()
      ensures Value().pool.done == wp.doneQueue && Value().workFor == workFor
    {
    }

    /** Takes one request off the queue, turns to its function and counts it. */
    method TakeRequest(f: FId) returns (q: ReqId, failed: Option<Crash>)
      requires wp.Valid() && wp.Value().Ok() && iQueue != []
      requires f in cfg.funs && cfg.funs[f].concurrency >= 0
      modifies this`iQueue, this`workFor, this`currentResource, this`iCount, wp
      ensures wp.Valid() && wp.all.Values <= old(wp.all.Values) && wp.all.Keys <= old(wp.all).Keys
      ensures iQueue == old(iQueue)[1..] && q == old(iQueue)[0]
      ensures match PopRequest(cfg, old(Value()), f)
              case Refused(c) => failed == Some(c)
              case Next(k) => failed == None && Value() == k.(pc := Ready, entries := old(Value()).entries)
    {
      hide Pool.Ok; hide Pool.Resize; hide WorkerPool.Value;
      ghost var was := Value();
      q := iQueue[0];
      iQueue := iQueue[1..];
      failed := AdjustResource(f);
      if failed == None {
        iCount := iCount + 1;
      }
    }

    /** Hands a request to the worker pool. */
    method DoExecuteWasm(q: ReqId, f: FId, gid: WId) returns (failed: Option<Crash>)
      requires wp.Valid() && gid !in wp.all
      modifies this`invokeEntryMap, wp, wp.all.Values
      ensures wp.Valid() && fresh(wp.all.Values - old(wp.all.Values)) && wp.all.Keys <= old(wp.all).Keys + {gid}
      ensures match InvokeWorker(old(Value()).(pc := Pc.At(q), entries := old(Value()).entries + {q}), gid)
              case Refused(c) => failed == Some(c)
              case Next(k) => failed == None && Value() == k
    {
      hide Pool.Invoke; hide Pool.CanInvoke; hide WorkerPool.Value;
      invokeEntryMap := invokeEntryMap[q := f];
      var ok := wp.Invoke(q, gid);
      failed := if ok then None else Some(NoIdleWorker);
    }

    /** Runs a native function, which ends as status says. */
    method DoExecute(q: ReqId, status: Status) returns (failed: Option<Crash>)
      requires wp.Valid() && Serves(cfg, Value(), lists)
      modifies this`iCount, this`lists, this`sent
      ensures lists.Keys == old(lists).Keys
      ensures match GiveBack(cfg, id, old(Value()), old(lists), old(sent) + [Answer(q, status)], q)
              case Stopped(c) => failed == Some(c)
              case Turn(k, l, s) => failed == None && Value() == k && lists == l && sent == s
    {
      hide GiveBack; hide WorkerPool.Value;
      sent := sent + [Answer(q, status)];
      failed := DoChangeICount(q);
    }

    /** One round of the queue loop. */
    method HandleRequest(f: FId, status: Status, gid: WId) returns (failed: Option<Crash>)
      requires wp.Valid() && wp.Value().Ok() && iQueue != [] && gid !in wp.all
      requires f in cfg.funs && cfg.funs[f].concurrency >= 0 && f in lists
      modifies this, wp, wp.all.Values
      ensures wp.Valid() && fresh(wp.all.Values - old(wp.all.Values)) && wp.all.Keys <= old(wp.all).Keys + {gid}
      ensures iQueue == old(iQueue)[1..] && lists.Keys == old(lists).Keys
      ensures match HandleOne(cfg, id, old(Value()), old(lists), old(sent), f, status, gid)
              case Stopped(c) => failed == Some(c)
              case Turn(k, l, s) => failed == None && Value() == k && lists == l && sent == s
    {
      hide GiveBack; hide PopRequest; hide Pool.Ok; hide InvokeWorker; hide WorkerPool.Value;
      ghost var was := Value();
      var q;
      q, failed := TakeRequest(f);
      if failed.Some? {
        return;
      }
      ghost var k := PopRequest(cfg, was, f).task;
      Popped(cfg, was, f);
      if cfg.funs[f].wasm {
        assert Value().(pc := Pc.At(q), entries := was.entries + {q}) == k;
        failed := DoExecuteWasm(q, f, gid);
      } else {
        assert Value() == k.(pc := Ready);
        GiveBackReady(cfg, id, k, lists, sent + [Answer(q, status)], q);
        failed := DoExecute(q, status);
      }
    }

    /** Empties the queue; a request whose worker must be created gets one with the id gid
        gives it. */
    method HandleIQueue(funs: map<ReqId, FId>, outcome: ReqId -> Status, gid: ReqId -> WId)
      returns (failed: Option<Crash>)
      requires wp.Valid() && wp.Value().Ok() && Known(cfg, lists, funs, iQueue) && FreshIds(iQueue, gid, wp.all.Keys)
      modifies this, wp, wp.all.Values
      ensures match HandleAll(cfg, id, old(Value()), old(lists), old(sent), funs, outcome, gid)
              case Stopped(c) => failed == Some(c)
              case Turn(k, l, s) => failed == None && Value() == k && lists == l && sent == s
    {
      hide HandleOne; hide Value; hide WorkerPool.Value; hide Pool.Ok; hide WorkerPool.Valid; hide FreshIds;
      ghost var k, l, s := Value(), lists, sent;
      assert Value().queue == iQueue by { QueueIs(); }
      while iQueue != []
        invariant wp.Valid() && wp.Value().Ok() && Value().queue == iQueue
        invariant Known(cfg, lists, funs, iQueue) && FreshIds(iQueue, gid, wp.all.Keys)
        invariant fresh(wp.all.Values - old(wp.all.Values))
        invariant HandleAll(cfg, id, Value(), lists, sent, funs, outcome, gid) ==
                  HandleAll(cfg, id, k, l, s, funs, outcome, gid)
        decreases |iQueue|
      {
        var q := iQueue[0];
        ghost var taken := wp.all.Keys;
        QueueIs();
        RestFresh(iQueue, gid, taken);
        HandleOneOk(cfg, id, Value(), lists, sent, funs[q], outcome(q), gid(q));
        failed := HandleRequest(funs[q], outcome(q), gid(q));
        if failed.Some? {
          return;
        }
        QueueIs();
      }
      failed := None;
    }

    lemma QueueIs()
      ensures Value().queue == iQueue && Value().pool == wp.Value() && Value().pool.workers.Keys == wp.all.Keys
    {
    }
  }

  /** The ids for workers that may have to be created are new and distinct. */
  ghost predicate FreshIds(queue: seq<ReqId>, gid: ReqId -> WId, taken: set<WId>) {
    && Distinct(queue) && (forall q <- queue :: gid(q) !in taken)
    && forall q, x :: q in queue && x in queue && q != x ==> gid(q) != gid(x)
  }

  lemma RestFresh(queue: seq<ReqId>, gid: ReqId -> WId, taken: set<WId>)
    requires queue != [] && FreshIds(queue, gid, taken)
    ensures gid(queue[0]) !in taken
    ensures forall now :: now <= taken + {gid(queue[0])} ==> FreshIds(queue[1..], gid, now)
  {
    assert queue == [queue[0]] + queue[1..];
    assert forall x <- queue[1..] :: x in queue && x != queue[0];
  }

  /** Turning to a function keeps the books of the pool, and adds no worker. */
  lemma ServeKeepsPool(cfg: Config, k: Task, f: FId)
    requires k.pool.Ok() && f in cfg.funs && cfg.funs[f].concurrency >= 0
    ensures match Serve(cfg, k, f)
            case Refused(_) => true
            case Next(k') => k'.pool.Ok() && k'.pool.workers.Keys <= k.pool.workers.Keys
  {
    if k.pool.CanResize() {
      ResizeOk(k.pool, cfg.funs[f].concurrency);
    }
    hide Pool.Ok;
  }

  /** Handling a request keeps the books of the pool. */
  lemma HandleOneOk(cfg: Config, t: TId, k: Task, lists: map<FId, seq<Entry>>, sent: seq<Answer>, f: FId,
                    status: Status, gid: WId)
    requires k.pool.Ok() && gid !in k.pool.workers && k.queue != [] && f in cfg.funs && cfg.funs[f].concurrency >= 0
             && f in lists
    ensures match HandleOne(cfg, t, k, lists, sent, f, status, gid)
            case Stopped(_) => true
            case Turn(k', _, _) => k'.pool.Ok()
  {
    ServeKeepsPool(cfg, k, f);
    hide Pool.Ok; hide ReturnOne; hide CountOf; hide Pool.Invoke; hide Pool.CanInvoke; hide Serve;
    match PopRequest(cfg, k, f)
    case Refused(_) =>
    case Next(k') =>
      if k'.pool.CanInvoke() {
        InvokeOk(k'.pool, gid, k.queue[0]);
      }
  }

  lemma Popped(cfg: Config, k: Task, f: FId)
    requires f in cfg.funs && cfg.funs[f].concurrency >= 0 && k.queue != [] && PopRequest(cfg, k, f).Next?
    ensures var k' := PopRequest(cfg, k, f).task;
            && k'.pc == Pc.At(k.queue[0]) && k'.queue == k.queue[1..] && k'.workFor == Some(f)
            && k'.entries == if cfg.funs[f].wasm then k.entries + {k.queue[0]} else k.entries
  {
  }

  lemma GiveBackReady(cfg: Config, t: TId, k: Task, lists: map<FId, seq<Entry>>, sent: seq<Answer>, q: ReqId)
    requires Serves(cfg, k, lists)
    ensures GiveBack(cfg, t, k.(pc := Ready), lists, sent, q) == GiveBack(cfg, t, k, lists, sent, q)
  {
  }
}
