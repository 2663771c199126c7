/** The queue object: the pieces of enqueue, _processQueue and _deliver between two suspensions. */
module MessageQueueModel {
  import Q = QueueSpec

  class MessageQueue {
    var queue: seq<Q.QueueEntry>
    var deliveryRecords: map<nat, Q.Delivery>
    var processing: bool
    var timers: seq<int> // callbacks handed to the event loop
    var passes: seq<Q.Pass> // suspended passes

    ghost function View(): Q.Queue
      reads this
    {
      Q.Queue(queue, deliveryRecords, processing, timers, passes)
    }

    constructor ()
      ensures View() == Q.EMPTY
    {
      queue, deliveryRecords, processing, timers, passes := [], map[], false, [], [];
    }

    method Enqueue(id: nat, now: int)
      requires id !in deliveryRecords
      modifies this
      ensures View() == Q.Enqueue(old(View()), id, now)
    {
      deliveryRecords := deliveryRecords[id := Q.Delivery(Q.Queued, 0, 0)];
      queue := queue + [Q.QueueEntry(id, now)];
      ScheduleProcessing(now);
    }

    method ScheduleProcessing(now: int)
      modifies this`processing, this`timers
      ensures View() == Q.Schedule(old(View()), now)
    {
      if !processing {
        processing := true;
        timers := timers + [now];
      }
    }

    // A timer fires: the pass picks what is ready and starts its first send.
    method ProcessQueue(i: nat, now: int)
      requires i < |timers|
      modifies this
      ensures View() == Q.Fire(old(View()), i, now)
    {
      timers := timers[..i] + timers[i + 1..];
      var ready: seq<nat> := [];
      for n := 0 to |queue|
        invariant ready == Q.Ready(queue[..n], deliveryRecords, now)
      {
        assert queue[..n + 1][..n] == queue[..n];
        if Q.PendingIn(deliveryRecords, queue[n].id) && queue[n].nextRetryAt <= now {
          ready := ready + [queue[n].id];
        }
      }
      assert queue[..|queue|] == queue;
      GoOn(ready, now);
    }

    // A send comes back: its delivery is settled or postponed, before the pass goes on.
    method SendReturns(j: nat, result: Q.SendResult, now: int)
      requires j < |passes| && passes[j].Sending?
      modifies this
      ensures View() == Q.Resolve(old(View()), j, result, now)
    {
      var pass := passes[j];
      passes := passes[j := Q.GoingOn(pass.rest)];
      SettleDelivery(pass.current, result, now);
    }

    method PassGoesOn(j: nat, now: int)
      requires j < |passes|
      modifies this
      ensures View() == Q.Continue(old(View()), j, now)
    {
      var rest := passes[j].rest;
      passes := passes[..j] + passes[j + 1..];
      GoOn(rest, now);
    }

    // Puts back what was saved.
    method Restore(savedQueue: seq<Q.QueueEntry>, savedRecords: map<nat, Q.Delivery>, now: int)
      modifies this
      ensures View() == Q.Restore(old(View()), savedQueue, savedRecords, now)
    {
      deliveryRecords := savedRecords;
      queue := [];
      for n := 0 to |savedQueue|
        invariant queue == savedQueue[..n] && deliveryRecords == savedRecords
        invariant processing == old(processing) && timers == old(timers) && passes == old(passes)
      {
        queue := queue + [savedQueue[n]];
      }
      if |queue| > 0 {
        ScheduleProcessing(now);
      }
    }

    method SettleDelivery(id: nat, result: Q.SendResult, now: int)
      modifies this`queue, this`deliveryRecords
      ensures View() == Q.Settle(old(View()), id, result, now)
    {
      if id !in deliveryRecords {
        return;
      }
      var d := deliveryRecords[id];
      if result == Q.Accepted {
        deliveryRecords := deliveryRecords[id := d.(status := Q.Sent)];
      } else {
        var retryable := result != Q.Refused(false);
        if retryable && d.attempts < Q.MAX_RETRIES {
          deliveryRecords := deliveryRecords[id := d.(status := Q.Retried)];
          queue := Q.Postponed(queue, id, now + Q.Power2(d.attempts) * 1000);
        } else {
          deliveryRecords := deliveryRecords[id := d.(status := Q.Failed)];
        }
      }
    }

    // Starts the next send of a pass, or ends the pass.
    method GoOn(ids: seq<nat>, now: int)
      modifies this
      ensures View() == Q.GoOn(old(View()), ids, now)
    {
      if ids == [] {
        EndPass(now);
        return;
      }
      if ids[0] in deliveryRecords {
        var d := deliveryRecords[ids[0]];
        deliveryRecords := deliveryRecords[ids[0] := d.(attempts := d.attempts + 1, lastAttemptAt := now)];
      }
      passes := passes + [Q.Sending(ids[0], ids[1..])];
    }

    method EndPass(now: int)
      modifies this
      ensures View() == Q.EndPass(old(View()), now)
    {
      var left: seq<Q.QueueEntry> := [];
      for n := 0 to |queue|
        invariant left == Q.Unsettled(queue[..n], deliveryRecords)
      {
        assert queue[..n + 1][..n] == queue[..n];
        if Q.PendingIn(deliveryRecords, queue[n].id) {
          left := left + [queue[n]];
        }
      }
      assert queue[..|queue|] == queue;
      queue := left;
      if queue != [] {
        var nextRetry := queue[0].nextRetryAt;
        for n := 1 to |queue|
          invariant nextRetry == Q.EarliestRetry(queue[..n])
        {
          assert queue[..n + 1][..n] == queue[..n];
          if queue[n].nextRetryAt < nextRetry {
            nextRetry := queue[n].nextRetryAt;
          }
        }
        assert queue[..|queue|] == queue;
        var delay := if nextRetry - now > 0 then nextRetry - now else 0;
        timers := timers + [now + delay];
      } else {
        processing := false;
      }
    }

    // Counts the entries that wait to be delivered.
    method Depth() returns (n: nat)
      ensures n == Q.Depth(queue, deliveryRecords)
    {
      n := 0;
      for k := 0 to |queue|
        invariant n == Q.Depth(queue[..k], deliveryRecords)
      {
        assert queue[..k + 1][..k] == queue[..k];
        if Q.PendingIn(deliveryRecords, queue[k].id) {
          n := n + 1;
        }
      }
      assert queue[..|queue|] == queue;
    }
  }
}
