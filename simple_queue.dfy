/**
 * The in-memory broadcast queue (src/core/queue.js): jobs wait in a FIFO
 * list until at least one consumer is registered, and each job taken off
 * the front is handed to every registered consumer. A consumer is named
 * by an id; what it does with the job (an asynchronous call whose
 * rejection is swallowed) is recorded as one `Call` per hand-over.
 */
module CoreQueue {

  datatype Call<J> = Call(consumer: nat, job: J)

  /** The queue's fields together with the hand-overs made so far. */
  datatype QueueState<J> = QueueState(q: seq<J>, consumers: seq<nat>, calls: seq<Call<J>>)

  /** `for (const h of this.consumers) h(job)`: one call per consumer, in registration order. */
  function Broadcast<J>(cs: seq<nat>, job: J): (r: seq<Call<J>>)
    ensures |r| == |cs|
  {
    if cs == [] then [] else [Call(cs[0], job)] + Broadcast(cs[1..], job)
  }

  /** One iteration of `_drain`'s loop, when there is a job and a consumer. */
  function DrainStep<J>(s: QueueState<J>): QueueState<J>
    requires s.q != [] && s.consumers != []
  {
    QueueState(s.q[1..], s.consumers, s.calls + Broadcast(s.consumers, s.q[0]))
  }

  /** `_drain()`: repeat the step while both lists are non-empty. */
  function Drain<J>(s: QueueState<J>): QueueState<J>
    decreases |s.q|
  {
    if s.q != [] && s.consumers != [] then Drain(DrainStep(s)) else s
  }

  /** Every job of `jobs`, in order, handed to every consumer of `cs`, in order. */
  function Deliveries<J>(jobs: seq<J>, cs: seq<nat>): seq<Call<J>>
  {
    if jobs == [] then [] else Broadcast(cs, jobs[0]) + Deliveries(jobs[1..], cs)
  }

  /**
   * With a consumer registered the queue ends empty and every waiting job
   * has been handed, front first, to every consumer.
   */
  lemma {:induction false} DrainDelivers<J>(s: QueueState<J>)
    requires s.consumers != []
    ensures Drain(s) == QueueState([], s.consumers, s.calls + Deliveries(s.q, s.consumers))
    decreases |s.q|
  {
    if s.q == [] {
      assert s.calls + [] == s.calls;
    } else {
      var t := DrainStep(s);
      var b := Broadcast(s.consumers, s.q[0]);
      var d := Deliveries(s.q[1..], s.consumers);
      assert Drain(s) == Drain(t);
      DrainDelivers(t);
      assert Deliveries(s.q, s.consumers) == b + d;
      assert (s.calls + b) + d == s.calls + (b + d);
    }
  }

  /** Without consumers `_drain` changes nothing: the jobs stay queued. */
  lemma DrainWithoutConsumers<J>(s: QueueState<J>)
    requires s.consumers == []
    ensures Drain(s) == s
  {
  }

  /** The calls for one job: the job handed to each consumer. */
  lemma {:induction false} BroadcastAt<J>(cs: seq<nat>, job: J, k: nat)
    requires k < |cs|
    ensures Broadcast(cs, job)[k] == Call(cs[k], job)
    decreases k
  {
    if k > 0 {
      BroadcastAt(cs[1..], job, k - 1);
    }
  }

  /** A hand-over happens exactly for a queued job and a registered consumer. */
  lemma {:induction false} DeliveriesComplete<J>(jobs: seq<J>, cs: seq<nat>, h: nat, j: J)
    ensures Call(h, j) in Deliveries(jobs, cs) <==> h in cs && j in jobs
    decreases |jobs|
  {
    if jobs != [] {
      DeliveriesComplete(jobs[1..], cs, h, j);
      var b := Broadcast(cs, jobs[0]);
      if h in cs && j == jobs[0] {
        var k :| 0 <= k < |cs| && cs[k] == h;
        BroadcastAt(cs, jobs[0], k);
      }
      if Call(h, j) in b {
        var k :| 0 <= k < |b| && b[k] == Call(h, j);
        BroadcastAt(cs, jobs[0], k);
      }
      assert jobs == [jobs[0]] + jobs[1..];
    }
  }

  /** The hand-overs of two batches of jobs are those of the first, then those of the second. */
  lemma {:induction false} DeliveriesAppend<J>(a: seq<J>, b: seq<J>, cs: seq<nat>)
    ensures Deliveries(a + b, cs) == Deliveries(a, cs) + Deliveries(b, cs)
    decreases |a|
  {
    if a == [] {
      assert a + b == b;
    } else {
      assert (a + b)[1..] == a[1..] + b;
      DeliveriesAppend(a[1..], b, cs);
    }
  }

  /** Jobs are handed out in enqueue order: all calls for an earlier job come before those for a later one. */
  lemma DeliveriesOrder<J>(jobs: seq<J>, cs: seq<nat>, i: nat)
    requires i < |jobs|
    ensures Deliveries(jobs, cs) == Deliveries(jobs[..i], cs) + Broadcast(cs, jobs[i]) + Deliveries(jobs[i + 1..], cs)
  {
    assert jobs == jobs[..i] + ([jobs[i]] + jobs[i + 1..]);
    DeliveriesAppend(jobs[..i], [jobs[i]] + jobs[i + 1..], cs);
    assert ([jobs[i]] + jobs[i + 1..])[1..] == jobs[i + 1..];
  }

  class SimpleQueue<J> {
    var q: seq<J>
    var consumers: seq<nat>
    var calls: seq<Call<J>>

    constructor ()
      ensures Value() == QueueState([], [], [])
    {
      q, consumers, calls := [], [], [];
    }

    function Value(): QueueState<J>
      reads this
    {
      QueueState(q, consumers, calls)
    }

    /** `enqueue(job)`: push, then drain. */
    method Enqueue(job: J)
      modifies this
      ensures Value() == Drain(old(Value()).(q := old(q) + [job]))
    {
      q := q + [job];
      DrainQueue();
    }

    /** `register(handler)`: push the consumer, then drain. */
    method Register(h: nat)
      modifies this
      ensures Value() == Drain(old(Value()).(consumers := old(consumers) + [h]))
    {
      consumers := consumers + [h];
      DrainQueue();
    }

    /** `_drain()`. */
    method DrainQueue()
      modifies this
      ensures Value() == Drain(old(Value()))
    {
      while q != [] && consumers != []
        invariant Drain(Value()) == Drain(old(Value()))
        decreases |q|
      {
        ghost var before := Value();
        var job := q[0];
        q := q[1..];
        var i := 0;
        while i < |consumers|
          invariant 0 <= i <= |consumers|
          invariant q == before.q[1..] && consumers == before.consumers
          invariant calls == before.calls + Broadcast(consumers[..i], job)
        {
          assert consumers[..i + 1] == consumers[..i] + [consumers[i]];
          BroadcastSnoc(consumers[..i], consumers[i], job);
          calls := calls + [Call(consumers[i], job)];
          i := i + 1;
        }
        assert consumers[..i] == consumers;
        assert Value() == DrainStep(before);
      }
    }
  }

  /** One more consumer gets the job after the others. */
  lemma {:induction false} BroadcastSnoc<J>(cs: seq<nat>, c: nat, job: J)
    ensures Broadcast(cs + [c], job) == Broadcast(cs, job) + [Call(c, job)]
    decreases |cs|
  {
    if cs == [] {
      assert cs + [c] == [c];
    } else {
      assert (cs + [c])[1..] == cs[1..] + [c];
      BroadcastSnoc(cs[1..], c, job);
    }
  }
}
