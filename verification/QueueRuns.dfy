/** The delivery queue over every run: enqueues, firing timers, returning sends and passes going on, in any order. */
module QueueRuns {
  import opened QueueSpec

  datatype Action =
    | Add(id: nat)
    | Timer(i: nat)
    | Return(j: nat, result: SendResult)
    | GoesOn(j: nat)

  datatype Timed = Timed(action: Action, at: int)

  // Delivery ids are new; a timer does not fire before it is due.
  ghost predicate Enabled(s: Queue, t: Timed) {
    match t.action
    case Add(id) => id !in s.records
    case Timer(i) => i < |s.timers| && s.timers[i] <= t.at
    case Return(j, result) => j < |s.passes| && s.passes[j].Sending?
    case GoesOn(j) => j < |s.passes| && s.passes[j].GoingOn?
  }

  ghost function Next(s: Queue, t: Timed): Queue
    requires Enabled(s, t)
  {
    match t.action
    case Add(id) => Enqueue(s, id, t.at)
    case Timer(i) => Fire(s, i, t.at)
    case Return(j, result) => Resolve(s, j, result, t.at)
    case GoesOn(j) => Continue(s, j, t.at)
  }

  ghost predicate Legal(s: Queue, acts: seq<Timed>)
    decreases |acts|
  {
    acts == [] || (Enabled(s, acts[0]) && Legal(Next(s, acts[0]), acts[1..]))
  }

  ghost function Run(s: Queue, acts: seq<Timed>): Queue
    requires Legal(s, acts)
    decreases |acts|
  {
    if acts == [] then s else Run(Next(s, acts[0]), acts[1..])
  }

  // ----- the invariant -----

  ghost predicate DistinctIds(q: seq<QueueEntry>) {
    forall i, j | 0 <= i < j < |q| :: q[i].id != q[j].id
  }

  ghost predicate Queues(q: seq<QueueEntry>, id: nat) {
    exists i | 0 <= i < |q| :: q[i].id == id
  }

  ghost predicate Distinct(ids: seq<nat>) {
    forall i, j | 0 <= i < j < |ids| :: ids[i] != ids[j]
  }

  // Queue and records: every entry has a record, every pending record an entry.
  ghost predicate Consistent(s: Queue) {
    && DistinctIds(s.queue)
    && (forall e | e in s.queue :: e.id in s.records)
    && (forall id | id in s.records && Pending(s.records[id]) :: Queues(s.queue, id))
  }

  // A delivery that is pending and not being sent right now has an attempt left.
  ghost predicate Bounded(s: Queue, sending: set<nat>) {
    forall id | id in s.records ::
      s.records[id].attempts <= MAX_RETRIES &&
      (Pending(s.records[id]) && id !in sending ==> s.records[id].attempts < MAX_RETRIES)
  }

  // At most one pass exists, scheduled or under way, and processing tells whether there is one.
  ghost predicate OneWorker(s: Queue) {
    && |s.timers| + |s.passes| == (if s.processing then 1 else 0)
    && (s.passes == [] ==> forall e | e in s.queue :: PendingIn(s.records, e.id))
    && (!s.processing ==> s.queue == [])
  }

  // A scheduled pass finds something to send when it is due.
  ghost predicate TimerUseful(s: Queue) {
    forall t | t in s.timers :: exists e | e in s.queue :: e.nextRetryAt <= t
  }

  ghost function SendingNow(s: Queue): set<nat> {
    set p | p in s.passes && p.Sending? :: p.current
  }

  ghost function Unsent(p: Pass): seq<nat> {
    if p.Sending? then [p.current] + p.rest else p.rest
  }

  // What a pass is sending and still has to send is pending, each delivery once.
  ghost predicate PassOk(s: Queue, p: Pass) {
    && Distinct(Unsent(p)) && (forall id | id in Unsent(p) :: PendingIn(s.records, id))
    && (p.Sending? ==> p.current in s.records && s.records[p.current].attempts >= 1)
  }

  ghost predicate Inv(s: Queue) {
    && Consistent(s) && OneWorker(s) && TimerUseful(s)
    && Bounded(s, SendingNow(s))
    && forall p | p in s.passes :: PassOk(s, p)
  }
}
