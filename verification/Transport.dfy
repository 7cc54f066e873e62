/**
  `EventTransport` (agent/transport.py) as called by one thread at a time; DeliveryProtocol takes
  the same calls apart into the steps that other threads can come between.  The answer of the
  server to each post is a parameter.
 */
module Transport {
  import opened Data
  import opened DeliveryQueue
  import opened DeliveryProtocol

  /** The pending rows after one uninterrupted `enqueue`: a full queue gives up its oldest row. */
  function Offered(pending: seq<Json>, event: Json, max: nat): seq<Json> {
    (if |pending| >= max then Drop(pending, 1) else pending) + [event]
  }

  class EventTransport {
    const queue: PersistentQueue
    const maxQueueSize: nat

    constructor (queue: PersistentQueue, maxQueueSize: nat)
      ensures this.queue == queue && this.maxQueueSize == maxQueueSize
    {
      this.queue := queue;
      this.maxQueueSize := maxQueueSize;
    }

    method Enqueue(event: Json)
      requires queue.Valid()
      modifies queue
      ensures queue.Valid()
      ensures queue.Pending() == Offered(old(queue.Pending()), event, maxQueueSize)
    {
      var size := queue.Size();
      if size >= maxQueueSize {
        queue.Commit(1);
      }
      queue.Put(event);
    }

    /** One flush.  `sent` is the batch the server acknowledged, empty when there was none. */
    method Flush(posted: bool) returns (sent: seq<Json>)
      requires queue.Valid()
      modifies queue
      ensures queue.Valid()
      ensures sent == if posted then Take(old(queue.Pending()), BATCH_SIZE) else []
      ensures queue.Pending() == if posted then Drop(old(queue.Pending()), BATCH_SIZE) else old(queue.Pending())
    {
      var batch := queue.Peek(BATCH_SIZE);
      sent := [];
      if batch == [] {
        return;
      }
      if posted {
        queue.Commit(|batch|);
        sent := batch;
      }
    }

    /**
      The delivery loop, one flush per answer: the server has acknowledged one batch for each
      success, oldest first, and the rest is still pending.
     */
    method Loop(answers: seq<bool>) returns (sent: seq<Json>)
      requires queue.Valid()
      modifies queue
      ensures queue.Valid()
      ensures sent == Take(old(queue.Pending()), BATCH_SIZE * Successes(answers))
      ensures sent + queue.Pending() == old(queue.Pending())
      ensures queue.Pending() == [] <==> |old(queue.Pending())| <= BATCH_SIZE * Successes(answers)
    {
      sent := [];
      ghost var was := queue.Pending();
      for i := 0 to |answers|
        invariant queue.Valid()
        invariant sent == Take(was, BATCH_SIZE * Successes(answers[..i]))
        invariant queue.Pending() == Drop(was, BATCH_SIZE * Successes(answers[..i]))
      {
        OneMoreAnswer(answers, i);
        BatchByBatch(was, BATCH_SIZE * Successes(answers[..i]));
        var more := Flush(answers[i]);
        sent := sent + more;
      }
      assert answers[..|answers|] == answers;
      BatchByBatch(was, BATCH_SIZE * Successes(answers));
    }

    /**
      Shuts down once the loop has ended: one last flush, then the queue is closed.  It drains the
      queue exactly when that flush is answered and one batch holds everything.
     */
    method Stop(posted: bool) returns (sent: seq<Json>)
      requires queue.Valid()
      modifies queue
      ensures queue.Valid()
      ensures sent + queue.Pending() == old(queue.Pending())
      ensures queue.Pending() == Stopped(old(queue.Pending()), posted)
      ensures queue.Pending() == []
              <==> old(queue.Pending()) == [] || (posted && |old(queue.Pending())| <= BATCH_SIZE)
    {
      sent := Flush(posted);
    }
  }

  /** The rows that are still pending after `stop`. */
  function Stopped(pending: seq<Json>, posted: bool): seq<Json> {
    if posted then Drop(pending, BATCH_SIZE) else pending
  }

  /** With one row more than a batch, `stop` leaves the newest one behind, whatever the server answers. */
  lemma StopLeavesTheNewest(pending: seq<Json>)
    requires |pending| == 101
    ensures Stopped(pending, true) == [pending[100]] && Stopped(pending, false) == pending
  {
  }

  function Successes(answers: seq<bool>): nat {
    if answers == [] then 0
    else Successes(answers[..|answers| - 1]) + if answers[|answers| - 1] then 1 else 0
  }

  lemma OneMoreAnswer(answers: seq<bool>, i: nat)
    requires i < |answers|
    ensures var n := BATCH_SIZE * Successes(answers[..i]);
            BATCH_SIZE * Successes(answers[..i + 1]) == if answers[i] then n + BATCH_SIZE else n
  {
    assert answers[..i + 1][..i] == answers[..i];
  }

  lemma BatchByBatch(q: seq<Json>, n: nat)
    ensures Take(q, n) + Take(Drop(q, n), BATCH_SIZE) == Take(q, n + BATCH_SIZE)
    ensures Drop(Drop(q, n), BATCH_SIZE) == Drop(q, n + BATCH_SIZE)
    ensures Take(q, n) + Drop(q, n) == q
  {
  }

  /** The three steps of an enqueuer, with nothing in between, are one `enqueue`. */
  lemma UninterruptedEnqueue(s: State, i: nat, event: Json, max: nat)
    requires i < |s.enqueuers| && s.enqueuers[i].Idle?
    ensures var t := Do(Do(Do(s, CheckSize(i, event), max), Step.Evict(i), max), Step.Put(i), max);
            && t.queue == Offered(s.queue, event, max)
            && t.enqueuers == s.enqueuers
            && t.puts == s.puts + [event]
  {
    var t := Do(Do(Do(s, CheckSize(i, event), max), Step.Evict(i), max), Step.Put(i), max);
    assert t.enqueuers == s.enqueuers;
  }

  /** The three steps of a flusher, with nothing in between, are one `_flush`. */
  lemma UninterruptedFlush(s: State, i: nat, posted: bool, max: nat)
    requires i < |s.flushers| && s.flushers[i].Resting? && s.Head() >= 0
    ensures var post := if posted then PostSucceeds(i) else PostFails(i);
            var t := Do(Do(Do(s, Step.Peek(i), max), post, max), Step.Commit(i), max);
            && t.queue == (if posted then Drop(s.queue, BATCH_SIZE) else s.queue)
            && t.flushers[i].Resting? && t.puts == s.puts
  {
  }
}
