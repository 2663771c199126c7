/** The delivery queue of server/messagingHub.ts as functions on its state. An asynchronous pass is cut at its
    suspension points: a timer fires and the first send starts, or a send comes back and the next one starts. */
module QueueSpec {
  datatype Status = Queued | Sent | Failed | Retried

  datatype Delivery = Delivery(status: Status, attempts: nat, lastAttemptAt: int)

  datatype QueueEntry = QueueEntry(id: nat, nextRetryAt: int)

  // A pass that is waiting for the send of its current delivery, or has seen it settled and is about to go on; rest is
  // what it still has to send.
  datatype Pass = Sending(current: nat, rest: seq<nat>) | GoingOn(rest: seq<nat>)

  // What a send comes back with.
  datatype SendResult = Accepted | Refused(retryable: bool) | Threw

  // timers holds the due times of every pass that is scheduled, passes every pass that is under way.
  datatype Queue = Queue(queue: seq<QueueEntry>, records: map<nat, Delivery>, processing: bool,
                         timers: seq<int>, passes: seq<Pass>)

  const EMPTY := Queue([], map[], false, [], [])

  const MAX_RETRIES := 3

  predicate Pending(d: Delivery) {
    d.status == Queued || d.status == Retried
  }

  predicate PendingIn(records: map<nat, Delivery>, id: nat) {
    id in records && Pending(records[id])
  }

  // The ids of the pending entries that are due, in queue order.
  function Ready(q: seq<QueueEntry>, records: map<nat, Delivery>, now: int): seq<nat> {
    if q == [] then []
    else
      var e := q[|q| - 1];
      Ready(q[..|q| - 1], records, now) + if PendingIn(records, e.id) && e.nextRetryAt <= now then [e.id] else []
  }

  function Unsettled(q: seq<QueueEntry>, records: map<nat, Delivery>): seq<QueueEntry> {
    if q == [] then []
    else
      var e := q[|q| - 1];
      Unsettled(q[..|q| - 1], records) + if PendingIn(records, e.id) then [e] else []
  }

  // The number of entries waiting to be delivered.
  function Depth(q: seq<QueueEntry>, records: map<nat, Delivery>): nat {
    |Unsettled(q, records)|
  }

  function EarliestRetry(q: seq<QueueEntry>): int
    requires q != []
  {
    var e := q[|q| - 1];
    if |q| == 1 then e.nextRetryAt
    else
      var m := EarliestRetry(q[..|q| - 1]);
      if e.nextRetryAt < m then e.nextRetryAt else m
  }

  function Schedule(s: Queue, now: int): Queue {
    if s.processing then s else s.(processing := true, timers := s.timers + [now])
  }

  function Enqueue(s: Queue, id: nat, now: int): Queue {
    Schedule(s.(records := s.records[id := Delivery(Queued, 0, 0)], queue := s.queue + [QueueEntry(id, now)]), now)
  }

  // The synchronous start of one send.
  function Attempt(records: map<nat, Delivery>, id: nat, now: int): map<nat, Delivery> {
    if id in records then records[id := records[id].(attempts := records[id].attempts + 1, lastAttemptAt := now)]
    else records
  }

  function BackoffMs(attempts: nat): nat {
    Power2(attempts) * 1000
  }

  function Power2(n: nat): nat {
    if n == 0 then 1 else 2 * Power2(n - 1)
  }

  predicate CanRetry(d: Delivery, r: SendResult) {
    (r == Threw || r == Refused(true)) && d.attempts < MAX_RETRIES
  }

  function Outcome(d: Delivery, r: SendResult): Status {
    if r == Accepted then Sent else if CanRetry(d, r) then Retried else Failed
  }

  function Postponed(q: seq<QueueEntry>, id: nat, at: int): seq<QueueEntry> {
    seq(|q|, i requires 0 <= i < |q| => if q[i].id == id then q[i].(nextRetryAt := at) else q[i])
  }

  // The end of one send.
  function Settle(s: Queue, id: nat, r: SendResult, now: int): Queue {
    if id !in s.records then s
    else
      var d := s.records[id];
      s.(records := s.records[id := d.(status := Outcome(d, r))],
         queue := if CanRetry(d, r) then Postponed(s.queue, id, now + BackoffMs(d.attempts)) else s.queue)
  }

  // The end of a pass: settled entries leave, and another pass is scheduled if anything is left.
  function EndPass(s: Queue, now: int): Queue {
    var q := Unsettled(s.queue, s.records);
    if q == [] then s.(queue := q, processing := false)
    else
      var next := EarliestRetry(q);
      s.(queue := q, timers := s.timers + [if next > now then next else now])
  }

  // A pass goes on with the first of some deliveries, or ends.
  function GoOn(s: Queue, ids: seq<nat>, now: int): Queue {
    if ids == [] then EndPass(s, now)
    else s.(records := Attempt(s.records, ids[0], now), passes := s.passes + [Sending(ids[0], ids[1..])])
  }

  function Fire(s: Queue, i: nat, now: int): Queue
    requires i < |s.timers|
  {
    GoOn(s.(timers := s.timers[..i] + s.timers[i + 1..]), Ready(s.queue, s.records, now), now)
  }

  // A send comes back and its delivery is settled; the pass has yet to go on.
  function Resolve(s: Queue, j: nat, r: SendResult, now: int): Queue
    requires j < |s.passes| && s.passes[j].Sending?
  {
    var p := s.passes[j];
    Settle(s, p.current, r, now).(passes := s.passes[j := GoingOn(p.rest)])
  }

  function Continue(s: Queue, j: nat, now: int): Queue
    requires j < |s.passes|
  {
    GoOn(s.(passes := s.passes[..j] + s.passes[j + 1..]), s.passes[j].rest, now)
  }

  // A saved queue is put back, and processing starts if it holds anything. What was scheduled or under way when it was
  // saved is gone.
  function Restore(s: Queue, queue: seq<QueueEntry>, records: map<nat, Delivery>, now: int): Queue {
    var put := s.(queue := queue, records := records);
    if queue == [] then put else Schedule(put, now)
  }
}
