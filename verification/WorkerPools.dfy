/** A task's pool of worker threads, as the code keeps it: worker objects that wait in a queue
    or are looked up by id while they are busy. */
module WorkerPools {
  import opened Pools
  import opened Sequences
  import opened Tasks
  import opened Wrappers

  class WorkerThread {
    const id: WId
    var inbox: seq<ReqId>
    var running: Option<ReqId>

    constructor (id: WId)
      ensures this.id == id && inbox == [] && running == None
    {
      this.id := id;
      inbox := [];
      running := None;
    }

    function Value(): Worker
      reads this
    {
      Worker(inbox, running)
    }
  }

  function Ids(ws: seq<WorkerThread>): (r: seq<WId>)
    ensures |r| == |ws| && forall i :: 0 <= i < |ws| ==> r[i] == ws[i].id
  {
    seq(|ws|, i requires 0 <= i < |ws| => ws[i].id)
  }

  class WorkerPool {
    var size: nat
    var idleWorkers: seq<WorkerThread>
    var busyWorkers: map<WId, WorkerThread>
    var doneQueue: seq<Done>
    ghost var all: map<WId, WorkerThread>   // the workers created and not shut down

    ghost predicate Valid()
      reads this
    {
      && (forall w <- all :: all[w].id == w)
      && (forall i :: 0 <= i < |idleWorkers| ==> idleWorkers[i].id in all && all[idleWorkers[i].id] == idleWorkers[i])
      && (forall w <- busyWorkers :: w in all && all[w] == busyWorkers[w])
    }

    ghost function Value(): Pool
      reads this, all.Values
    {
      Pool(size, Ids(idleWorkers), busyWorkers.Keys, map w | w in all :: all[w].Value(), doneQueue)
    }

    constructor (size: nat)
      ensures Valid() && Value() == Pool(size, [], {}, map[], [])
    {
      this.size := size;
      idleWorkers, busyWorkers, doneQueue, all := [], map[], [], map[];
    }

    /** Gives request q to the worker that waits longest. */
    method Give(q: ReqId)
      requires Valid() && idleWorkers != []
      modifies this, all.Values
      ensures Valid() && all == old(all)
      ensures forall gid :: Value() == old(Value()).Invoke(gid, q)
    {
      ghost var was := Value();
      var worker := idleWorkers[0];
      idleWorkers := idleWorkers[1..];
      busyWorkers := busyWorkers[worker.id := worker];
      worker.inbox := worker.inbox + [q];
      ghost var now := was.Invoke(0, q);
      assert now.workers == was.workers[worker.id := worker.Value()];
      assert Value().idle == now.idle;
      assert Value().workers == now.workers;
      assert forall gid :: was.Invoke(gid, q) == now;
    }

    /** Adds a worker while none waits. */
    method Create(gid: WId)
      requires Valid() && gid !in all && idleWorkers == []
      modifies this
      ensures Valid() && idleWorkers != [] && fresh(all.Values - old(all.Values)) && all.Keys == old(all).Keys + {gid}
      ensures Value() == old(Value()).(idle := [gid], workers := old(Value()).workers[gid := Worker([], None)])
    {
      ghost var was := Value();
      var created := new WorkerThread(gid);
      idleWorkers := idleWorkers + [created];
      all := all[gid := created];
      assert Value().idle == [gid];
      assert Value().workers == was.workers[gid := Worker([], None)];
    }

    /** Gives request q to a waiting worker, or to a new one with a fresh id; ok is whether the
        assertion that there is one holds. */
    method Invoke(q: ReqId, gid: WId) returns (ok: bool)
      requires Valid() && gid !in all
      modifies this, all.Values
      ensures Valid() && fresh(all.Values - old(all.Values)) && all.Keys <= old(all).Keys + {gid}
      ensures ok == old(Value()).CanInvoke()
      ensures Value() == if ok then old(Value()).Invoke(gid, q) else old(Value())
    {
      ghost var was := Value();
      assert gid !in was.workers && (was.idle == [] <==> idleWorkers == []) && |was.busy| == |busyWorkers|;
      if idleWorkers == [] && |busyWorkers| < size {
        Create(gid);
        ThroughIdle(was, gid, q);
      }
      if idleWorkers == [] {
        return false;
      }
      hide Pool.Invoke; hide Value;
      Give(q);
      ok := true;
    }

    /** A worker reports its request done and waits again. */
    method InvokeDone(worker: WorkerThread, entry: Done)
      requires Valid() && worker.id in all && all[worker.id] == worker && worker.running == Some(entry.q)
      modifies this, worker
      ensures Valid() && all == old(all)
      ensures Value() == old(Value()).Finish(worker.id, entry.status)
      ensures worker.inbox == old(worker.inbox) && worker.running == None
    {
      ghost var was := Value();
      worker.running := None;
      busyWorkers := busyWorkers - {worker.id};
      idleWorkers := idleWorkers + [worker];
      doneQueue := doneQueue + [entry];
      assert Value().idle == was.Finish(worker.id, entry.status).idle;
      assert Value().workers == was.Finish(worker.id, entry.status).workers;
    }

    /** A worker takes its next request, executes it and reports how it ended. */
    method ServeNext(worker: WorkerThread, status: Status)
      requires Valid() && worker.id in all && all[worker.id] == worker && Value().CanStart(worker.id)
      modifies this, worker
      ensures Valid() && all == old(all)
      ensures Value() == old(Value()).Start(worker.id).Finish(worker.id, status)
      ensures worker.inbox == old(worker.inbox)[1..] && worker.running == None
    {
      ghost var was := Value();
      var q := worker.inbox[0];
      worker.inbox, worker.running := worker.inbox[1..], Some(q);
      assert Value().workers == was.Start(worker.id).workers;
      assert Value() == was.Start(worker.id);
      InvokeDone(worker, Done(q, status));
    }

    /** A worker empties its queue; executions end as outcome says. A worker has at most one
        request, so it takes one, executes it and reports it. */
    method HandleIQueue(worker: WorkerThread, outcome: ReqId -> Status)
      requires Valid() && Value().Ok() && worker.id in all && all[worker.id] == worker && Value().CanStart(worker.id)
      modifies this, worker
      ensures Valid() && all == old(all)
      ensures Value() == old(Value()).Start(worker.id).Finish(worker.id, outcome(old(worker.inbox)[0]))
    {
      ghost var was, first := Value(), worker.inbox[0];
      OneRequest(was, worker.id);
      assert worker.inbox == [first] && worker.running == None;
      hide Pool.Ok; hide Pool.Start; hide Pool.Finish;
      while worker.inbox != []
        invariant Valid() && all == old(all) && worker.running == None
        invariant worker.inbox == [] || (worker.inbox == [first] && Value() == was)
        invariant worker.inbox == [] ==> Value() == was.Start(worker.id).Finish(worker.id, outcome(first))
        decreases |worker.inbox|
      {
        ServeNext(worker, outcome(worker.inbox[0]));
      }
    }

    /** Shuts down the workers that wait longest until newSize are left. */
    method Shrink(newSize: nat)
      requires Valid() && busyWorkers == map[] && |idleWorkers| == size && newSize <= size && Distinct(Ids(idleWorkers))
      modifies this`idleWorkers, this`all
      ensures Valid() && all.Values <= old(all.Values) && all.Keys <= old(all).Keys
      ensures idleWorkers == old(idleWorkers)[size - newSize..]
      ensures all == old(all) - (set k | 0 <= k < size - newSize :: old(Ids(idleWorkers))[k])
    {
      ghost var ids := Ids(idleWorkers);
      var n := size;
      while n > newSize
        invariant newSize <= n <= size && idleWorkers == old(idleWorkers)[size - n..] && Valid()
        invariant all == old(all) - (set k | 0 <= k < size - n :: ids[k])
      {
        assert idleWorkers[0].id == ids[size - n];
        assert forall i :: size - n < i < size ==> ids[i] != ids[size - n];
        idleWorkers := idleWorkers[1..];
        all := all - {ids[size - n]};
        n := n - 1;
      }
    }

    /** The part of Resize behind its assertions. */
    method SetSize(newSize: nat)
      requires Valid() && Value().CanResize() && Distinct(Ids(idleWorkers))
      modifies this
      ensures Valid() && all.Values <= old(all.Values) && all.Keys <= old(all).Keys
      ensures Value() == old(Value()).Resize(newSize)
    {
      ghost var was := Value();
      ghost var cut := if newSize < size then size - newSize else 0;
      ghost var gone := set k | 0 <= k < cut :: was.idle[k];
      if newSize < size {
        Shrink(newSize);
      }
      size := newSize;
      assert all == old(all) - gone;
      assert Ids(idleWorkers) == was.idle[cut..];
      assert Value().workers == was.workers - gone;
    }

    /** Resizes the pool unless one of the assertions fails. */
    method Resize(newSize: nat, maxConcurrency: int) returns (failed: Option<Crash>)
      requires Valid() && Value().Ok()
      modifies this
      ensures Valid() && all.Values <= old(all.Values) && all.Keys <= old(all).Keys
      ensures failed == (if old(Value()).busy != {} then Some(ResizeBusy)
                         else if |old(Value()).idle| != old(Value()).size then Some(ResizePartial)
                         else if newSize > maxConcurrency then Some(ResizeTooLarge) else None)
      ensures Value() == if failed == None then old(Value()).Resize(newSize) else old(Value())
    {
      assert Distinct(Ids(idleWorkers));
      hide Pool.Ok; hide Pool.Resize;
      if busyWorkers != map[] {
        return Some(ResizeBusy);
      }
      if |idleWorkers| != size {
        return Some(ResizePartial);
      }
      if newSize > maxConcurrency {
        return Some(ResizeTooLarge);
      }
      SetSize(newSize);
      failed := None;
    }
  }

  lemma ThroughIdle(p: Pool, gid: WId, q: ReqId)
    requires p.idle == [] && |p.busy| < p.size && gid !in p.workers
    ensures p.(idle := [gid], workers := p.workers[gid := Worker([], None)]).Invoke(gid, q) == p.Invoke(gid, q)
  {
    assert [] + [q] == [q];
  }

  lemma OneRequest(p: Pool, w: WId)
    requires p.Ok() && p.CanStart(w)
    ensures p.workers[w] == Worker([p.workers[w].inbox[0]], None)
  {
  }
}
