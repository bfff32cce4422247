/**
 A task thread as a value, and what it does with one entry of its request queue or of its
 done queue. Assertions and exceptions of the code appear as crashes.
 */
module Tasks {
  import opened Pools
  import opened TListSpec
  import opened Wrappers

  type FId = nat
  type RId = nat

  /** A registered function: the resource set it runs with, how many requests one task may
      have outstanding for it, and whether it runs on the task's worker pool. */
  datatype Fun = Fun(r: RId, concurrency: int, wasm: bool)

  datatype Config = Config(funs: map<FId, Fun>, maxConcurrency: int) {
    ghost predicate Ok() {
      forall f <- funs :: 1 <= funs[f].concurrency <= maxConcurrency
    }
  }

  datatype Crash =
    | TwoFunctions     // the exception for a second function while requests are in progress
    | NoIdleWorker     // the assertion of invoke
    | ResizeBusy       // the three assertions of resize
    | ResizePartial
    | ResizeTooLarge
    | NoEntry          // the assertion on a finished request's id
    | ListAssertion    // the assertions of returnOne and putOrUpdate

  /** Where the task thread is: between two queue entries, in the middle of request q, or
      past the decrement of the request count and about to give q back to its list. */
  datatype Pc = Ready | At(q: ReqId) | Giving(q: ReqId)

  datatype Task = Task(workFor: Option<FId>, resource: Option<RId>, iCount: int,
                       queue: seq<ReqId>, entries: set<ReqId>, pc: Pc, pool: Pool)

  const NEW_TASK := Task(None, None, 0, [], {}, Ready, EMPTY_POOL)

  /** The response to a request. */
  datatype Answer = Answer(q: ReqId, status: Status)

  datatype Outcome = Next(task: Task) | Refused(crash: Crash)

  /** Turns to function f: a task serves one function at a time, and resizes its pool when
      the resource set changes. */
  function Serve(cfg: Config, k: Task, f: FId): Outcome
    requires f in cfg.funs && cfg.funs[f].concurrency >= 0
  {
    var fun := cfg.funs[f];
    if k.workFor == Some(f) then Next(k)
    else if k.workFor.Some? && k.iCount != 0 then Refused(TwoFunctions)
    else if k.resource == Some(fun.r) then Next(k.(workFor := Some(f)))
    else if k.pool.busy != {} then Refused(ResizeBusy)
    else if |k.pool.idle| != k.pool.size then Refused(ResizePartial)
    else if fun.concurrency > cfg.maxConcurrency then Refused(ResizeTooLarge)
    else Next(k.(workFor := Some(f), resource := Some(fun.r), pool := k.pool.Resize(fun.concurrency)))
  }

  /** A task may not turn to f exactly if it serves another function with requests in progress, or
      must take on another R while its pool is busy, not fully populated, or f's concurrency is
      above the limit. Having turned, it serves f, with its R and, where the R is another, a pool of
      f's concurrency, and is otherwise as before. */
  lemma ServeIff(cfg: Config, k: Task, f: FId)
    requires f in cfg.funs && cfg.funs[f].concurrency >= 0
    ensures var fun := cfg.funs[f];
            var turns, moves := k.workFor != Some(f), k.workFor != Some(f) && k.resource != Some(fun.r);
            match Serve(cfg, k, f)
            case Refused(c) =>
              || (turns && k.workFor.Some? && k.iCount != 0 && c == TwoFunctions)
              || (&& moves && (k.workFor == None || k.iCount == 0)
                  && !(k.pool.CanResize() && fun.concurrency <= cfg.maxConcurrency)
                  && c == if k.pool.busy != {} then ResizeBusy
                          else if |k.pool.idle| != k.pool.size then ResizePartial else ResizeTooLarge)
            case Next(k') =>
              && (turns ==> k.workFor == None || k.iCount == 0)
              && (moves ==> k.pool.CanResize() && fun.concurrency <= cfg.maxConcurrency)
              && k'.workFor == Some(f) && k'.resource == (if turns then Some(fun.r) else k.resource)
              && k'.pool == (if moves then k.pool.Resize(fun.concurrency) else k.pool)
              && k' == k.(workFor := k'.workFor, resource := k'.resource, pool := k'.pool)
  {
  }

  /** Takes the next request off the queue, for function f. */
  function PopRequest(cfg: Config, k: Task, f: FId): Outcome
    requires f in cfg.funs && cfg.funs[f].concurrency >= 0 && k.queue != []
  {
    match Serve(cfg, k, f)
    case Refused(c) => Refused(c)
    case Next(k') =>
      var q := k.queue[0];
      Next(k'.(queue := k.queue[1..], iCount := k'.iCount + 1, pc := At(q),
               entries := if cfg.funs[f].wasm then k.entries + {q} else k.entries))
  }

  /** Hands the request at hand to the worker pool. */
  function InvokeWorker(k: Task, created: WId): Outcome
    requires k.pc.At?
  {
    if !k.pool.CanInvoke() then Refused(NoIdleWorker)
    else Next(k.(pc := Ready, pool := k.pool.Invoke(created, k.pc.q)))
  }

  /** Ends a request: it is answered and no longer counted, but still to be given back. */
  function EndRequest(k: Task, q: ReqId): Task {
    k.(iCount := k.iCount - 1, pc := Giving(q))
  }

  /** Takes the next finished request off the done queue. */
  function PopDone(k: Task): Outcome
    requires k.pool.done != []
  {
    var q := k.pool.done[0].q;
    if q !in k.entries then Refused(NoEntry)
    else Next(EndRequest(k.(entries := k.entries - {q}, pool := k.pool.(done := k.pool.done[1..])), q))
  }
}
