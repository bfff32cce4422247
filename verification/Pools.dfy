/**
 The worker pool of a task as a value: the workers that wait, the ones that have a request,
 each worker's own queue, and the queue of finished requests the task reads.
 The scheduler takes its pool steps with these functions and the class in `WorkerPools`
 is proved to compute them.
 */
module Pools {
  import opened Sequences
  import opened Wrappers

  type ReqId = nat
  type WId = nat

  datatype Status = Succeeded | Failed | Wrong

  /** A finished request, with how its execution ended. */
  datatype Done = Done(q: ReqId, status: Status)

  /** A worker thread: the requests pushed to it and the one it executes. */
  datatype Worker = Worker(inbox: seq<ReqId>, running: Option<ReqId>) {
    predicate Empty() {
      inbox == [] && running == None
    }

    /** The worker has exactly request q. */
    predicate Has(q: ReqId) {
      (inbox == [q] && running == None) || (inbox == [] && running == Some(q))
    }
  }

  datatype Pool = Pool(size: nat, idle: seq<WId>, busy: set<WId>, workers: map<WId, Worker>, done: seq<Done>) {

    predicate CanInvoke() {
      idle != [] || |busy| < size
    }

    /** A request goes to the worker that waits longest; one is created when none waits and
        there is room. */
    function Invoke(created: WId, q: ReqId): Pool
      requires CanInvoke()
    {
      if idle == [] then
        this.(busy := busy + {created}, workers := workers[created := Worker([q], None)])
      else
        var w := idle[0];
        var inbox := if w in workers then workers[w].inbox else [];
        var running := if w in workers then workers[w].running else None;
        this.(idle := idle[1..], busy := busy + {w}, workers := workers[w := Worker(inbox + [q], running)])
    }

    /** The worker that Invoke gives the request to. */
    function Chosen(created: WId): WId {
      if idle == [] then created else idle[0]
    }

    predicate CanStart(w: WId) {
      w in workers && workers[w].running == None && workers[w].inbox != []
    }

    function Start(w: WId): Pool
      requires CanStart(w)
    {
      var k := workers[w];
      this.(workers := workers[w := Worker(k.inbox[1..], Some(k.inbox[0]))])
    }

    predicate CanFinish(w: WId) {
      w in workers && workers[w].running.Some?
    }

    /** The worker reports its request done and waits again. */
    function Finish(w: WId, status: Status): Pool
      requires CanFinish(w)
    {
      var k := workers[w];
      Pool(size, idle + [w], busy - {w}, workers[w := Worker(k.inbox, None)], done + [Done(k.running.value, status)])
    }

    predicate CanResize() {
      busy == {} && |idle| == size
    }

    /** Shrinking shuts down the workers that wait longest. */
    function Resize(n: nat): Pool
      requires CanResize()
    {
      var cut := if n < size then size - n else 0;
      this.(size := n, idle := idle[cut..], workers := workers - (set k | 0 <= k < cut :: idle[k]))
    }

    /** Waiting and busy workers are disjoint and within the size; a busy worker has exactly
        one request and a waiting one none. */
    ghost predicate Ok() {
      && Distinct(idle)
      && (forall w <- idle :: w !in busy && w in workers && workers[w].Empty())
      && (forall w <- busy :: w in workers && exists q :: workers[w].Has(q))
      && (forall w <- workers :: w in busy || w in idle)
      && |idle| + |busy| <= size
    }

    /** The request of a busy worker. */
    function Request(w: WId): ReqId {
      if w !in workers then 0
      else if workers[w].running.Some? then workers[w].running.value
      else if workers[w].inbox != [] then workers[w].inbox[0] else 0
    }
  }

  /** No request is finished twice. */
  ghost predicate DistinctDone(done: seq<Done>) {
    forall i, j :: 0 <= i < j < |done| ==> done[i].q != done[j].q
  }

  const EMPTY_POOL := Pool(0, [], {}, map[], [])

  lemma InvokeKeepsOk(p: Pool, created: WId, q: ReqId)
    requires p.Ok() && p.CanInvoke() && (p.idle == [] ==> created !in p.workers)
    ensures p.Invoke(created, q).Ok()
  {
    var w := p.Chosen(created);
    var p' := p.Invoke(created, q);
    assert p'.workers[w].Has(q);
    if p.idle != [] {
      assert p.idle == [p.idle[0]] + p.idle[1..];
      assert forall v <- p'.idle :: v in p.idle && v != w;
    }
    forall v <- p'.busy
      ensures exists x :: p'.workers[v].Has(x)
    {
      assert v != w ==> p'.workers[v] == p.workers[v];
    }
  }

  /** A request goes to the worker that waits longest, or to a new one when none waits. */
  lemma InvokeOk(p: Pool, created: WId, q: ReqId)
    requires p.Ok() && p.CanInvoke() && (p.idle == [] ==> created !in p.workers)
    ensures p.Invoke(created, q).Ok()
    ensures p.Invoke(created, q).idle == if p.idle == [] then [] else p.idle[1..]
    ensures p.Invoke(created, q).size == p.size && p.Invoke(created, q).done == p.done
    ensures var w := if p.idle == [] then created else p.idle[0];
            && w !in p.busy && p.Invoke(created, q).busy == p.busy + {w}
            && |p.Invoke(created, q).busy| == |p.busy| + 1
            && p.Invoke(created, q).Request(w) == q
            && (forall v <- p.busy :: p.Invoke(created, q).Request(v) == p.Request(v))
  {
    InvokeKeepsOk(p, created, q);
    assert p.Chosen(created) !in p.busy;
    if p.idle != [] {
      assert p.workers[p.idle[0]].Empty();
    }
    hide Pool.Ok;
  }

  lemma StartOk(p: Pool, w: WId)
    requires p.Ok() && p.CanStart(w)
    ensures p.Start(w).Ok() && w in p.busy
    ensures p.Start(w).idle == p.idle && p.Start(w).busy == p.busy && p.Start(w).done == p.done
    ensures forall v <- p.busy :: p.Start(w).Request(v) == p.Request(v)
  {
    assert w in p.busy;
    var p' := p.Start(w);
    assert p'.workers[w].Has(p.Request(w));
    forall v <- p'.busy
      ensures exists x :: p'.workers[v].Has(x)
    {
      assert v != w ==> p'.workers[v] == p.workers[v];
    }
  }

  /** A worker that reports waits behind all others, and so does its report. */
  lemma FinishOk(p: Pool, w: WId, status: Status)
    requires p.Ok() && p.CanFinish(w)
    ensures p.Finish(w, status).Ok() && w in p.busy
    ensures |p.Finish(w, status).busy| == |p.busy| - 1
    ensures p.Finish(w, status).idle == p.idle + [w] && p.Finish(w, status).busy == p.busy - {w}
    ensures p.Finish(w, status).done == p.done + [Done(p.Request(w), status)]
    ensures forall v <- p.busy :: v != w ==> p.Finish(w, status).Request(v) == p.Request(v)
  {
    assert w in p.busy;
    var p' := p.Finish(w, status);
    assert p.busy == p'.busy + {w};
    forall v <- p'.busy
      ensures exists x :: p'.workers[v].Has(x)
    {
      assert p'.workers[v] == p.workers[v];
    }
  }

  /** Resizing keeps the workers that wait least long, at most n, and no others. */
  lemma ResizeOk(p: Pool, n: nat)
    requires p.Ok() && p.CanResize()
    ensures p.Resize(n).Ok() && p.Resize(n).busy == {} && p.Resize(n).done == p.done && p.Resize(n).size == n
    ensures |p.Resize(n).idle| == if n < p.size then n else p.size
    ensures p.Resize(n).idle == p.idle[|p.idle| - |p.Resize(n).idle|..]
    ensures forall w :: w in p.Resize(n).workers <==> w in p.Resize(n).idle
  {
    var p' := p.Resize(n);
    forall w
      ensures w in p'.workers <==> w in p'.idle
    {
      var cut := if n < p.size then p.size - n else 0;
      assert p.idle == p.idle[..cut] + p'.idle;
      assert w in p.idle[..cut] <==> exists k :: 0 <= k < cut && p.idle[k] == w;
    }
  }

  /** In an Ok pool a busy worker either has its request still queued or executes it, so it
      can start or finish. */
  lemma BusyCanProceed(p: Pool, w: WId)
    requires p.Ok() && w in p.busy
    ensures p.CanStart(w) || p.CanFinish(w)
  {
  }
}
