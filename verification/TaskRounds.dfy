/** What one round of a task's two queue loops does, said without the loops. */
module TaskRounds {
  import opened Pools
  import opened Sequences
  import opened Tasks
  import opened TaskThreads
  import opened TListSpec
  import opened Wrappers

  function Responses(done: seq<Done>): seq<Answer> {
    seq(|done|, i requires 0 <= i < |done| => Answer(done[i].q, done[i].status))
  }

  function DoneIds(done: seq<Done>): set<ReqId> {
    set i | 0 <= i < |done| :: done[i].q
  }

  /** Task t has given n requests back to the list of f, and no other count changed. */
  ghost predicate GaveBack(cfg: Config, t: TId, f: FId, lists: map<FId, seq<Entry>>, lists': map<FId, seq<Entry>>,
                           n: nat) {
    && f in cfg.funs && f in lists && lists'.Keys == lists.Keys
    && (forall g <- lists :: g != f ==> lists'[g] == lists[g])
    && Ok(lists'[f], cfg.funs[f].concurrency)
    && Changed(lists[f], lists'[f], t, CountOf(lists[f], t) - n)
  }

  lemma GaveBackMore(cfg: Config, t: TId, f: FId, a: map<FId, seq<Entry>>, b: map<FId, seq<Entry>>,
                     c: map<FId, seq<Entry>>, m: nat, n: nat)
    requires GaveBack(cfg, t, f, a, b, m) && GaveBack(cfg, t, f, b, c, n)
    ensures GaveBack(cfg, t, f, a, c, m + n)
  {
    hide CountOf; hide Ok;
    assert CountOf(b[f], t) == CountOf(a[f], t) - m;
    forall u
      ensures CountOf(c[f], u) == if u == t then CountOf(a[f], t) - (m + n) else CountOf(a[f], u)
    {
      assert u != t ==> CountOf(b[f], u) == CountOf(a[f], u);
    }
  }

  lemma GiveBackMeaning(cfg: Config, t: TId, k: Task, lists: map<FId, seq<Entry>>, sent: seq<Answer>, q: ReqId)
    requires Serves(cfg, k, lists)
    requires var f := k.workFor.value; Ok(lists[f], cfg.funs[f].concurrency) && CountOf(lists[f], t) >= 1
    ensures match GiveBack(cfg, t, k, lists, sent, q)
            case Stopped(_) => false
            case Turn(k', lists', sent') =>
              && k' == k.(iCount := k.iCount - 1, pc := Ready) && sent' == sent
              && GaveBack(cfg, t, k.workFor.value, lists, lists', 1)
  {
    hide Ok; hide ReturnOne; hide Changed; hide CountOf;
    var f := k.workFor.value;
    ReturnOneMeaning(lists[f], cfg.funs[f].concurrency, t);
  }

  /** Giving back fails exactly if the list has no request counted for the task. */
  lemma GivesBackIff(cfg: Config, t: TId, k: Task, lists: map<FId, seq<Entry>>, sent: seq<Answer>, q: ReqId)
    requires Serves(cfg, k, lists)
    ensures var r := GiveBack(cfg, t, k, lists, sent, q);
            if CountOf(lists[k.workFor.value], t) < 1 then r == Stopped(ListAssertion) else r.Turn?
  {
  }

  /** Collecting a report fails exactly if its request is not known to the task, or none is counted
      for the task in the list. */
  lemma CollectsIff(cfg: Config, t: TId, k: Task, lists: map<FId, seq<Entry>>, sent: seq<Answer>)
    requires Serves(cfg, k, lists) && k.pool.done != []
    ensures var r := CollectOne(cfg, t, k, lists, sent);
            if k.pool.done[0].q !in k.entries then r == Stopped(NoEntry)
            else if CountOf(lists[k.workFor.value], t) < 1 then r == Stopped(ListAssertion)
            else r.Turn?
  {
    hide CountOf; hide ReturnOne;
  }

  /** Taking up a request fails exactly if the task may not turn to its function, or, for a wasm
      function, no worker waits and none can be added, or, for a native one, no request is counted
      for the task in the list. */
  lemma HandlesIff(cfg: Config, t: TId, k: Task, lists: map<FId, seq<Entry>>, sent: seq<Answer>, f: FId,
                   status: Status, gid: WId)
    requires k.queue != [] && f in cfg.funs && cfg.funs[f].concurrency >= 0 && f in lists
    ensures var o, r := Serve(cfg, k, f), HandleOne(cfg, t, k, lists, sent, f, status, gid);
            if o.Refused? then r == Stopped(o.crash)
            else if cfg.funs[f].wasm then
              if o.task.pool.idle == [] && |o.task.pool.busy| >= o.task.pool.size then r == Stopped(NoIdleWorker)
              else r.Turn?
            else if CountOf(lists[f], t) < 1 then r == Stopped(ListAssertion)
            else r.Turn?
  {
    ServeIff(cfg, k, f);
    hide CountOf; hide ReturnOne; hide Serve; hide Pool.Invoke;
  }

  lemma CollectsOne(cfg: Config, t: TId, k: Task, lists: map<FId, seq<Entry>>, sent: seq<Answer>)
    requires Serves(cfg, k, lists) && k.pc == Ready && k.pool.done != [] && k.pool.done[0].q in k.entries
    requires var f := k.workFor.value; Ok(lists[f], cfg.funs[f].concurrency) && CountOf(lists[f], t) >= 1
    ensures match CollectOne(cfg, t, k, lists, sent)
            case Stopped(_) => false
            case Turn(k', lists', sent') =>
              var d := k.pool.done[0];
              && k' == k.(iCount := k.iCount - 1, entries := k.entries - {d.q},
                          pool := k.pool.(done := k.pool.done[1..]))
              && sent' == sent + [Answer(d.q, d.status)]
              && GaveBack(cfg, t, k.workFor.value, lists, lists', 1)
  {
    hide Ok; hide CountOf; hide GiveBack; hide GaveBack;
    var d := k.pool.done[0];
    GiveBackMeaning(cfg, t, k.(entries := k.entries - {d.q}, pool := k.pool.(done := k.pool.done[1..])), lists,
                    sent + [Answer(d.q, d.status)], d.q);
  }

  /** A round over the done queue answers every finished request in the order of completion,
      forgets their entries, and gives each of them back: the count of requests in progress
      and the count in the list both drop by their number. */
  lemma {:induction false} CollectsEverything(cfg: Config, t: TId, k: Task, lists: map<FId, seq<Entry>>,
                                              sent: seq<Answer>)
    requires Serves(cfg, k, lists) && k.pc == Ready
    requires DistinctDone(k.pool.done) && DoneIds(k.pool.done) <= k.entries
    requires var f := k.workFor.value; Ok(lists[f], cfg.funs[f].concurrency) && CountOf(lists[f], t) >= |k.pool.done|
    ensures match CollectAll(cfg, t, k, lists, sent)
            case Stopped(_) => false
            case Turn(k', lists', sent') =>
              && k' == k.(iCount := k.iCount - |k.pool.done|, entries := k.entries - DoneIds(k.pool.done),
                          pool := k.pool.(done := []))
              && sent' == sent + Responses(k.pool.done)
              && GaveBack(cfg, t, k.workFor.value, lists, lists', |k.pool.done|)
    decreases |k.pool.done|
  {
    if k.pool.done == [] {
      hide Ok; hide CountOf;
      assert sent + Responses([]) == sent && DoneIds([]) == {};
    } else {
      hide Ok; hide CountOf;
      var f := k.workFor.value;
      var d, rest := k.pool.done[0], k.pool.done[1..];
      assert k.pool.done == [d] + rest;
      DoneSplit(d, rest);
      hide DistinctDone; hide DoneIds; hide Responses;
      CollectsOne(cfg, t, k, lists, sent);
      var Turn(k1, lists1, sent1) := CollectOne(cfg, t, k, lists, sent);
      assert CountOf(lists1[f], t) == CountOf(lists[f], t) - 1;
      hide CollectOne; hide GaveBack;
      CollectsEverything(cfg, t, k1, lists1, sent1);
      var r := CollectAll(cfg, t, k1, lists1, sent1);
      GaveBackMore(cfg, t, f, lists, lists1, r.lists, 1, |rest|);
      Associative(sent, [Answer(d.q, d.status)], Responses(rest));
      assert r == CollectAll(cfg, t, k, lists, sent);
      hide CollectAll;
      assert (k.entries - {d.q}) - DoneIds(rest) == k.entries - DoneIds(k.pool.done);
    }
  }

  lemma Associative<X>(a: seq<X>, b: seq<X>, c: seq<X>)
    ensures (a + b) + c == a + (b + c)
  {
  }

  lemma DoneSplit(d: Done, rest: seq<Done>)
    ensures DoneIds([d] + rest) == {d.q} + DoneIds(rest)
    ensures Responses([d] + rest) == [Answer(d.q, d.status)] + Responses(rest)
    ensures DistinctDone([d] + rest) ==> DistinctDone(rest) && d.q !in DoneIds(rest)
  {
    IdsSplit(d, rest);
    ResponsesSplit(d, rest);
    if DistinctDone([d] + rest) {
      DistinctSplit(d, rest);
    }
  }

  lemma IdsSplit(d: Done, rest: seq<Done>)
    ensures DoneIds([d] + rest) == {d.q} + DoneIds(rest)
  {
    var all := [d] + rest;
    forall q
      ensures q in DoneIds(all) <==> q == d.q || q in DoneIds(rest)
    {
      if q in DoneIds(all) {
        var i :| 0 <= i < |all| && all[i].q == q;
        assert i > 0 ==> rest[i - 1].q == q;
      }
      if q in DoneIds(rest) {
        var i :| 0 <= i < |rest| && rest[i].q == q;
        assert all[i + 1].q == q;
      }
      assert all[0].q == d.q;
    }
  }

  lemma ResponsesSplit(d: Done, rest: seq<Done>)
    ensures Responses([d] + rest) == [Answer(d.q, d.status)] + Responses(rest)
  {
    var all := [d] + rest;
    forall i | 0 <= i < |all|
      ensures Responses(all)[i] == ([Answer(d.q, d.status)] + Responses(rest))[i]
    {
      assert i > 0 ==> all[i] == rest[i - 1];
    }
  }

  lemma DistinctSplit(d: Done, rest: seq<Done>)
    requires DistinctDone([d] + rest)
    ensures DistinctDone(rest) && d.q !in DoneIds(rest)
  {
    var all := [d] + rest;
    assert forall i :: 0 <= i < |rest| ==> all[i + 1] == rest[i];
    assert all[0] == d;
  }

  /** Every request in the queue is for f. */
  ghost predicate AllFor(cfg: Config, lists: map<FId, seq<Entry>>, funs: map<ReqId, FId>, queue: seq<ReqId>, f: FId) {
    && f in cfg.funs && cfg.funs[f].concurrency >= 0 && f in lists
    && forall q <- queue :: q in funs && funs[q] == f
  }

  function Outcomes(queue: seq<ReqId>, outcome: ReqId -> Status): seq<Answer> {
    seq(|queue|, i requires 0 <= i < |queue| => Answer(queue[i], outcome(queue[i])))
  }

  lemma OutcomesSplit(q: ReqId, rest: seq<ReqId>, outcome: ReqId -> Status)
    ensures Outcomes([q] + rest, outcome) == [Answer(q, outcome(q))] + Outcomes(rest, outcome)
  {
  }

  lemma HandlesOneNative(cfg: Config, t: TId, k: Task, lists: map<FId, seq<Entry>>, sent: seq<Answer>, f: FId,
                         status: Status, gid: WId)
    requires k.queue != [] && f in cfg.funs && cfg.funs[f].concurrency >= 0 && f in lists
    requires k.workFor == Some(f) && k.pc == Ready && !cfg.funs[f].wasm
    requires Ok(lists[f], cfg.funs[f].concurrency) && CountOf(lists[f], t) >= 1
    ensures match HandleOne(cfg, t, k, lists, sent, f, status, gid)
            case Stopped(_) => false
            case Turn(k', lists', sent') =>
              k' == k.(queue := k.queue[1..]) && sent' == sent + [Answer(k.queue[0], status)]
                && GaveBack(cfg, t, f, lists, lists', 1)
  {
    hide Ok; hide CountOf; hide GiveBack; hide GaveBack;
    GiveBackMeaning(cfg, t, PopRequest(cfg, k, f).task, lists, sent + [Answer(k.queue[0], status)], k.queue[0]);
  }

  /** A round over the queue of a task that serves a native function answers every request in
      the order of the queue, and gives each of them back: nothing stays in progress. */
  lemma {:induction false} ServesNative(cfg: Config, t: TId, k: Task, lists: map<FId, seq<Entry>>, sent: seq<Answer>,
                                         funs: map<ReqId, FId>, outcome: ReqId -> Status, gid: ReqId -> WId, f: FId)
    requires AllFor(cfg, lists, funs, k.queue, f) && k.workFor == Some(f) && k.pc == Ready && !cfg.funs[f].wasm
    requires Ok(lists[f], cfg.funs[f].concurrency) && CountOf(lists[f], t) >= |k.queue|
    ensures match HandleAll(cfg, t, k, lists, sent, funs, outcome, gid)
            case Stopped(_) => false
            case Turn(k', lists', sent') =>
              k' == k.(queue := []) && sent' == sent + Outcomes(k.queue, outcome)
                && GaveBack(cfg, t, f, lists, lists', |k.queue|)
    decreases |k.queue|
  {
    hide Ok; hide CountOf;
    if k.queue == [] {
      assert sent + Outcomes([], outcome) == sent;
    } else {
      var q, rest := k.queue[0], k.queue[1..];
      assert k.queue == [q] + rest;
      OutcomesSplit(q, rest, outcome);
      hide Outcomes;
      HandlesOneNative(cfg, t, k, lists, sent, f, outcome(q), gid(q));
      var Turn(k1, lists1, sent1) := HandleOne(cfg, t, k, lists, sent, f, outcome(q), gid(q));
      assert CountOf(lists1[f], t) == CountOf(lists[f], t) - 1;
      hide HandleOne; hide GaveBack;
      ServesNative(cfg, t, k1, lists1, sent1, funs, outcome, gid, f);
      var r := HandleAll(cfg, t, k1, lists1, sent1, funs, outcome, gid);
      assert r == HandleAll(cfg, t, k, lists, sent, funs, outcome, gid);
      hide HandleAll;
      GaveBackMore(cfg, t, f, lists, lists1, r.lists, 1, |rest|);
      Associative(sent, [Answer(q, outcome(q))], Outcomes(rest, outcome));
    }
  }

  function Elements(queue: seq<ReqId>): set<ReqId> {
    set q | q in queue
  }

  lemma HandlesOneWasm(cfg: Config, t: TId, k: Task, lists: map<FId, seq<Entry>>, sent: seq<Answer>, f: FId,
                       status: Status, gid: WId)
    requires k.queue != [] && f in cfg.funs && cfg.funs[f].concurrency >= 0 && f in lists
    requires k.workFor == Some(f) && k.pc == Ready && cfg.funs[f].wasm && k.pool.Ok() && gid !in k.pool.workers
    ensures match HandleOne(cfg, t, k, lists, sent, f, status, gid)
            case Stopped(c) => c == NoIdleWorker && |k.pool.busy| >= k.pool.size
            case Turn(k', lists', sent') =>
              && lists' == lists && sent' == sent && |k.pool.busy| < k.pool.size
              && k'.queue == k.queue[1..] && k'.iCount == k.iCount + 1 && k'.entries == k.entries + {k.queue[0]}
              && k'.workFor == k.workFor && k'.pc == Ready && k'.pool.Ok()
              && k'.pool.size == k.pool.size && k'.pool.done == k.pool.done && |k'.pool.busy| == |k.pool.busy| + 1
              && k'.pool.workers.Keys <= k.pool.workers.Keys + {gid}
  {
    var q := k.queue[0];
    if k.pool.CanInvoke() {
      InvokeOk(k.pool, gid, q);
      BusyFits(k.pool, gid, q);
    }
    assert |k.pool.idle| + |k.pool.busy| <= k.pool.size;
    hide Pool.Ok; hide Pool.Request;
  }

  lemma BusyFits(p: Pool, gid: WId, q: ReqId)
    requires p.Ok() && p.CanInvoke() && gid !in p.workers
    ensures |p.busy| < p.size && p.Invoke(gid, q).workers.Keys <= p.workers.Keys + {gid}
  {
  }

  /** k' is k with the given requests handed to workers. */
  ghost predicate Handed(k: Task, k': Task, qs: seq<ReqId>) {
    && k'.iCount == k.iCount + |qs| && k'.entries == k.entries + Elements(qs)
    && |k'.pool.busy| == |k.pool.busy| + |qs| && k'.pool.size == k.pool.size && k'.pool.done == k.pool.done
  }

  lemma HandedMore(k: Task, k1: Task, k2: Task, q: ReqId, rest: seq<ReqId>)
    requires Handed(k1, k2, rest)
    requires k1.iCount == k.iCount + 1 && k1.entries == k.entries + {q} && |k1.pool.busy| == |k.pool.busy| + 1
    requires k1.pool.size == k.pool.size && k1.pool.done == k.pool.done
    ensures Handed(k, k2, [q] + rest)
  {
    assert Elements([q] + rest) == {q} + Elements(rest);
  }

  /** A round over the queue of a task that serves a wasm function hands every request to a
      worker, or fails for want of workers: exactly when the pool has too few that are not busy. */
  lemma {:induction false} ServesWasm(cfg: Config, t: TId, k: Task, lists: map<FId, seq<Entry>>, sent: seq<Answer>,
                                       funs: map<ReqId, FId>, outcome: ReqId -> Status, gid: ReqId -> WId, f: FId)
    requires AllFor(cfg, lists, funs, k.queue, f) && k.workFor == Some(f) && k.pc == Ready && cfg.funs[f].wasm
    requires k.pool.Ok() && FreshIds(k.queue, gid, k.pool.workers.Keys)
    ensures match HandleAll(cfg, t, k, lists, sent, funs, outcome, gid)
            case Stopped(c) => c == NoIdleWorker && |k.pool.busy| + |k.queue| > k.pool.size
            case Turn(k', lists', sent') =>
              && |k.pool.busy| + |k.queue| <= k.pool.size && lists' == lists && sent' == sent
              && k'.queue == [] && Handed(k, k', k.queue)
    decreases |k.queue|
  {
    assert |k.pool.busy| <= k.pool.size;
    hide Pool.Ok; hide FreshIds;
    if k.queue == [] {
      assert Elements(k.queue) == {};
    } else {
      hide Handed;
      var q, rest := k.queue[0], k.queue[1..];
      assert k.queue == [q] + rest;
      RestFresh(k.queue, gid, k.pool.workers.Keys);
      FirstFor(cfg, lists, funs, k.queue, f);
      hide AllFor;
      HandlesOneWasm(cfg, t, k, lists, sent, f, outcome(q), gid(q));
      var one := HandleOne(cfg, t, k, lists, sent, f, outcome(q), gid(q));
      HandleAllStep(cfg, t, k, lists, sent, funs, outcome, gid);
      hide HandleAll; hide HandleOne;
      if one.Turn? {
        ServesWasm(cfg, t, one.task, lists, sent, funs, outcome, gid, f);
        var r := HandleAll(cfg, t, one.task, lists, sent, funs, outcome, gid);
        if r.Turn? {
          HandedMore(k, one.task, r.task, q, rest);
        }
      }
    }
  }

  lemma FirstFor(cfg: Config, lists: map<FId, seq<Entry>>, funs: map<ReqId, FId>, queue: seq<ReqId>, f: FId)
    requires AllFor(cfg, lists, funs, queue, f) && queue != []
    ensures Known(cfg, lists, funs, queue) && funs[queue[0]] == f && AllFor(cfg, lists, funs, queue[1..], f)
    ensures f in cfg.funs && cfg.funs[f].concurrency >= 0 && f in lists
  {
  }

  lemma HandleAllStep(cfg: Config, t: TId, k: Task, lists: map<FId, seq<Entry>>, sent: seq<Answer>,
                      funs: map<ReqId, FId>, outcome: ReqId -> Status, gid: ReqId -> WId)
    requires Known(cfg, lists, funs, k.queue) && k.queue != []
    ensures var q := k.queue[0];
            var one := HandleOne(cfg, t, k, lists, sent, funs[q], outcome(q), gid(q));
            one.Turn? ==> Known(cfg, one.lists, funs, one.task.queue)
                          && HandleAll(cfg, t, k, lists, sent, funs, outcome, gid) ==
                             HandleAll(cfg, t, one.task, one.lists, one.sent, funs, outcome, gid)
    ensures var q := k.queue[0];
            var one := HandleOne(cfg, t, k, lists, sent, funs[q], outcome(q), gid(q));
            one.Stopped? ==> HandleAll(cfg, t, k, lists, sent, funs, outcome, gid) == one
  {
  }

  /** The task once it has turned to f for the first request of its queue. */
  function Turned(cfg: Config, k: Task, f: FId): Outcome
    requires f in cfg.funs && cfg.funs[f].concurrency >= 0
  {
    if k.queue == [] then Next(k) else Serve(cfg, k, f)
  }

  lemma TurnsTo(cfg: Config, k: Task, f: FId)
    requires f in cfg.funs && cfg.funs[f].concurrency >= 0
    ensures match Turned(cfg, k, f)
            case Refused(_) => k.queue != []
            case Next(k1) =>
              && k1 == k.(workFor := k1.workFor, resource := k1.resource, pool := k1.pool)
              && (k.queue != [] ==> k1.workFor == Some(f) && PopRequest(cfg, k, f) == PopRequest(cfg, k1, f))
              && k1.pool.busy == k.pool.busy && k1.pool.done == k.pool.done
              && k1.pool.workers.Keys <= k.pool.workers.Keys
              && (k.pool.Ok() ==> k1.pool.Ok())
  {
    if Turned(cfg, k, f).Next? && k.pool.Ok() && k.pool.CanResize() {
      ResizeOk(k.pool, cfg.funs[f].concurrency);
    }
    hide Pool.Ok;
  }

  /** In a round the task turns to f once, before its first request. */
  lemma RoundTurns(cfg: Config, t: TId, k: Task, lists: map<FId, seq<Entry>>, sent: seq<Answer>,
                   funs: map<ReqId, FId>, outcome: ReqId -> Status, gid: ReqId -> WId, f: FId)
    requires AllFor(cfg, lists, funs, k.queue, f)
    ensures var o := Turned(cfg, k, f);
            if o.Refused? then HandleAll(cfg, t, k, lists, sent, funs, outcome, gid) == Stopped(o.crash)
            else o.task.queue == k.queue
                 && HandleAll(cfg, t, k, lists, sent, funs, outcome, gid) ==
                    HandleAll(cfg, t, o.task, lists, sent, funs, outcome, gid)
  {
    TurnsTo(cfg, k, f);
    if k.queue != [] {
      FirstFor(cfg, lists, funs, k.queue, f);
      HandleAllStep(cfg, t, k, lists, sent, funs, outcome, gid);
      var o := Turned(cfg, k, f);
      if o.Next? {
        HandleAllStep(cfg, t, o.task, lists, sent, funs, outcome, gid);
      }
      hide HandleAll; hide GiveBack; hide AllFor;
    }
  }

  /** The round r has answered all requests in the queue of k and given them back. */
  ghost predicate AllAnswered(cfg: Config, t: TId, k: Task, lists: map<FId, seq<Entry>>, sent: seq<Answer>, f: FId,
                              outcome: ReqId -> Status, r: Turn)
  {
    r.Turn? && r.task == k.(queue := []) && r.sent == sent + Outcomes(k.queue, outcome)
      && GaveBack(cfg, t, f, lists, r.lists, |k.queue|)
  }

  /** A round over a queue for a native function: either the task may not turn to it and the round
      ends there, or every request is answered, in the order of the queue, and given back, and
      nothing stays in progress. */
  lemma HandlesNative(cfg: Config, t: TId, k: Task, lists: map<FId, seq<Entry>>, sent: seq<Answer>,
                      funs: map<ReqId, FId>, outcome: ReqId -> Status, gid: ReqId -> WId, f: FId)
    requires AllFor(cfg, lists, funs, k.queue, f) && k.pc == Ready && !cfg.funs[f].wasm
    requires Ok(lists[f], cfg.funs[f].concurrency) && CountOf(lists[f], t) >= |k.queue|
    ensures var o := Turned(cfg, k, f);
            if o.Refused? then HandleAll(cfg, t, k, lists, sent, funs, outcome, gid) == Stopped(o.crash)
            else AllAnswered(cfg, t, o.task, lists, sent, f, outcome,
                             HandleAll(cfg, t, k, lists, sent, funs, outcome, gid))
  {
    hide Ok; hide CountOf; hide GaveBack; hide Turned;
    RoundTurns(cfg, t, k, lists, sent, funs, outcome, gid, f);
    TurnsTo(cfg, k, f);
    var o := Turned(cfg, k, f);
    if k.queue == [] {
      NoneToHandle(cfg, t, k, lists, sent, f);
      assert sent + Outcomes([], outcome) == sent;
    } else if o.Next? {
      hide HandleAll;
      ServesNative(cfg, t, o.task, lists, sent, funs, outcome, gid, f);
    }
  }

  lemma NoneToHandle(cfg: Config, t: TId, k: Task, lists: map<FId, seq<Entry>>, sent: seq<Answer>, f: FId)
    requires k.queue == [] && f in cfg.funs && cfg.funs[f].concurrency >= 0 && f in lists
             && Ok(lists[f], cfg.funs[f].concurrency)
    requires CountOf(lists[f], t) >= 0
    ensures Turned(cfg, k, f) == Next(k) && GaveBack(cfg, t, f, lists, lists, 0)
  {
    hide Ok; hide CountOf;
  }

  /** The round r has handed all requests in the queue of k to workers, or there were too few. */
  ghost predicate AllHanded(k: Task, lists: map<FId, seq<Entry>>, sent: seq<Answer>, r: Turn) {
    if |k.pool.busy| + |k.queue| > k.pool.size then r == Stopped(NoIdleWorker)
    else r.Turn? && r.lists == lists && r.sent == sent && r.task.queue == [] && Handed(k, r.task, k.queue)
  }

  /** A round over a queue for a wasm function: either the task may not turn to it, or every
      request is handed to a worker, or the round fails for want of workers: exactly when the
      pool, resized if the task has turned to another R, has too few that are not busy. */
  lemma HandlesWasm(cfg: Config, t: TId, k: Task, lists: map<FId, seq<Entry>>, sent: seq<Answer>,
                    funs: map<ReqId, FId>, outcome: ReqId -> Status, gid: ReqId -> WId, f: FId)
    requires AllFor(cfg, lists, funs, k.queue, f) && k.pc == Ready && cfg.funs[f].wasm
    requires k.pool.Ok() && FreshIds(k.queue, gid, k.pool.workers.Keys)
    ensures var o := Turned(cfg, k, f);
            if o.Refused? then HandleAll(cfg, t, k, lists, sent, funs, outcome, gid) == Stopped(o.crash)
            else AllHanded(o.task, lists, sent, HandleAll(cfg, t, k, lists, sent, funs, outcome, gid))
  {
    assert |k.pool.busy| <= k.pool.size;
    hide Turned; hide Pool.Ok;
    RoundTurns(cfg, t, k, lists, sent, funs, outcome, gid, f);
    TurnsTo(cfg, k, f);
    var o := Turned(cfg, k, f);
    if k.queue == [] {
      NothingToHand(cfg, k, f);
    } else if o.Next? {
      hide HandleAll; hide Handed;
      ServesWasm(cfg, t, o.task, lists, sent, funs, outcome, gid, f);
    }
  }

  lemma NothingToHand(cfg: Config, k: Task, f: FId)
    requires k.queue == [] && f in cfg.funs && cfg.funs[f].concurrency >= 0
    ensures Turned(cfg, k, f) == Next(k) && Handed(k, k, [])
  {
    assert Elements([]) == {};
  }
}
