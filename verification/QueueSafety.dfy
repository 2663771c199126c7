/** Safety and progress of the delivery queue. */
module QueueSafety {
  import opened QueueSpec
  import opened QueueRuns

  // ----- filters -----

  lemma {:induction false} UnsettledFacts(q: seq<QueueEntry>, records: map<nat, Delivery>)
    ensures forall e | e in Unsettled(q, records) :: e in q && PendingIn(records, e.id)
    ensures forall e | e in q && PendingIn(records, e.id) :: e in Unsettled(q, records)
    ensures DistinctIds(q) ==> DistinctIds(Unsettled(q, records))
  {
    if q != [] {
      var before, e := q[..|q| - 1], q[|q| - 1];
      UnsettledFacts(before, records);
      assert q == before + [e];
      if DistinctIds(q) {
        var u := Unsettled(before, records);
        forall i | 0 <= i < |u|
          ensures u[i].id != e.id
        {
          assert u[i] in before;
        }
      }
    }
  }

  lemma {:induction false} ReadyFacts(q: seq<QueueEntry>, records: map<nat, Delivery>, now: int)
    requires DistinctIds(q)
    ensures Distinct(Ready(q, records, now))
    ensures forall id | id in Ready(q, records, now) :: PendingIn(records, id) && exists e | e in q :: e.id == id
    ensures forall e | e in q && PendingIn(records, e.id) && e.nextRetryAt <= now :: e.id in Ready(q, records, now)
  {
    if q != [] {
      var before, e := q[..|q| - 1], q[|q| - 1];
      ReadyFacts(before, records, now);
      assert q == before + [e];
      forall id | id in Ready(before, records, now)
        ensures id != e.id
      {
        var x :| x in before && x.id == id;
      }
    }
  }

  lemma {:induction false} EarliestFacts(q: seq<QueueEntry>)
    requires q != []
    ensures exists e | e in q :: e.nextRetryAt == EarliestRetry(q)
    ensures forall e | e in q :: EarliestRetry(q) <= e.nextRetryAt
  {
    var before, e := q[..|q| - 1], q[|q| - 1];
    assert q == before + [e];
    if |q| > 1 {
      EarliestFacts(before);
    }
  }

  lemma QueuesMember(q: seq<QueueEntry>, e: QueueEntry)
    requires e in q
    ensures Queues(q, e.id)
  {
    var i :| 0 <= i < |q| && q[i] == e;
  }

  // ----- between two sends -----

  // The worker runs and has yet to send ids: nothing is scheduled and nothing is being sent.
  ghost predicate Between(s: Queue, ids: seq<nat>) {
    && Consistent(s) && s.processing && s.timers == [] && s.passes == [] && Bounded(s, {})
    && Distinct(ids) && forall id | id in ids :: PendingIn(s.records, id)
  }

  lemma ConsistentUnsettled(s: Queue)
    requires Consistent(s)
    ensures Consistent(s.(queue := Unsettled(s.queue, s.records)))
  {
    UnsettledFacts(s.queue, s.records);
    var q := Unsettled(s.queue, s.records);
    forall id | id in s.records && Pending(s.records[id])
      ensures Queues(q, id)
    {
      var i :| 0 <= i < |s.queue| && s.queue[i].id == id;
      assert s.queue[i] in q;
      QueuesMember(q, s.queue[i]);
    }
  }

  lemma EndPassInv(s: Queue, now: int)
    requires Between(s, [])
    ensures Inv(EndPass(s, now))
  {
    var q := Unsettled(s.queue, s.records);
    ConsistentUnsettled(s);
    UnsettledFacts(s.queue, s.records);
    if q != [] {
      EarliestFacts(q);
    }
  }

  lemma GoOnInv(s: Queue, ids: seq<nat>, now: int)
    requires Between(s, ids)
    ensures Inv(GoOn(s, ids, now))
  {
    if ids == [] {
      EndPassInv(s, now);
    } else {
      var s' := GoOn(s, ids, now);
      var p := Sending(ids[0], ids[1..]);
      assert Unsent(p) == ids && ids[0] in ids;
      assert p in s'.passes && SendingNow(s') == {ids[0]};
    }
  }

  lemma AddConsistent(s: Queue, id: nat, now: int)
    requires Consistent(s) && id !in s.records
    ensures Consistent(Enqueue(s, id, now))
  {
    var s' := Enqueue(s, id, now);
    var e := QueueEntry(id, now);
    assert s'.queue == s.queue + [e] && e in s'.queue;
    forall x | x in s'.records && Pending(s'.records[x])
      ensures Queues(s'.queue, x)
    {
      if x == id {
        QueuesMember(s'.queue, e);
      } else {
        var i :| 0 <= i < |s.queue| && s.queue[i].id == x;
        assert s'.queue[i].id == x;
      }
    }
    forall i | 0 <= i < |s.queue|
      ensures s.queue[i].id != id
    {
      assert s.queue[i] in s.queue;
    }
  }

  lemma AddTimer(s: Queue, id: nat, now: int)
    requires Inv(s) && id !in s.records
    ensures TimerUseful(Enqueue(s, id, now)) && OneWorker(Enqueue(s, id, now))
  {
    var s' := Enqueue(s, id, now);
    var e := QueueEntry(id, now);
    assert s'.queue == s.queue + [e] && e in s'.queue;
    forall t | t in s'.timers
      ensures exists x | x in s'.queue :: x.nextRetryAt <= t
    {
      if t in s.timers {
        var x :| x in s.queue && x.nextRetryAt <= t;
        assert x in s'.queue;
      }
    }
  }

  lemma AddInv(s: Queue, id: nat, now: int)
    requires Inv(s) && id !in s.records
    ensures Inv(Enqueue(s, id, now))
  {
    AddConsistent(s, id, now);
    AddTimer(s, id, now);
    assert SendingNow(Enqueue(s, id, now)) == SendingNow(s);
  }

  lemma TimerBetween(s: Queue, i: nat, now: int)
    requires Inv(s) && i < |s.timers| && s.timers[i] <= now
    ensures Between(s.(timers := []), Ready(s.queue, s.records, now)) && s.timers == [s.timers[i]]
    ensures Ready(s.queue, s.records, now) != []
  {
    ReadyFacts(s.queue, s.records, now);
    assert s.timers[i] in s.timers;
    var e :| e in s.queue && e.nextRetryAt <= s.timers[i];
    assert e.id in Ready(s.queue, s.records, now);
    assert SendingNow(s) == {};
  }

  lemma TimerInv(s: Queue, i: nat, now: int)
    requires Inv(s) && i < |s.timers| && s.timers[i] <= now
    ensures Inv(Fire(s, i, now))
  {
    TimerBetween(s, i, now);
    assert s.timers[..i] + s.timers[i + 1..] == [];
    GoOnInv(s.(timers := []), Ready(s.queue, s.records, now), now);
  }

  lemma PostponedFacts(q: seq<QueueEntry>, id: nat, at: int)
    ensures DistinctIds(q) ==> DistinctIds(Postponed(q, id, at))
    ensures forall x :: Queues(Postponed(q, id, at), x) <==> Queues(q, x)
  {
    var q' := Postponed(q, id, at);
    forall x
      ensures Queues(q', x) <==> Queues(q, x)
    {
      if Queues(q, x) {
        var i :| 0 <= i < |q| && q[i].id == x;
        assert q'[i].id == x;
      }
    }
  }

  lemma SettledConsistent(s: Queue, id: nat, r: SendResult, now: int)
    requires Consistent(s) && PendingIn(s.records, id)
    ensures Consistent(Settle(s, id, r, now))
  {
    var s' := Settle(s, id, r, now);
    PostponedFacts(s.queue, id, now + BackoffMs(s.records[id].attempts));
    forall e | e in s'.queue
      ensures e.id in s'.records
    {
      QueuesMember(s'.queue, e);
      var i :| 0 <= i < |s.queue| && s.queue[i].id == e.id;
      assert s.queue[i] in s.queue;
    }
  }

  lemma DistinctRest(ids: seq<nat>)
    requires ids != [] && Distinct(ids)
    ensures Distinct(ids[1..]) && ids[0] !in ids[1..]
  {
  }

  lemma ReturnInv(s: Queue, j: nat, r: SendResult, now: int)
    requires Inv(s) && j < |s.passes| && s.passes[j].Sending?
    ensures s.passes == [s.passes[j]] && Inv(Resolve(s, j, r, now))
  {
    var p := s.passes[j];
    var s' := Resolve(s, j, r, now);
    assert p in s.passes && s.passes == [p];
    assert SendingNow(s) == {p.current} && SendingNow(s') == {};
    SettledConsistent(s, p.current, r, now);
    DistinctRest(Unsent(p));
    assert Unsent(p)[1..] == p.rest && s'.passes == [GoingOn(p.rest)];
    forall id | id in p.rest
      ensures PendingIn(s'.records, id)
    {
      assert id in Unsent(p) && id != p.current;
    }
  }

  lemma GoesOnBetween(s: Queue, j: nat)
    requires Inv(s) && j < |s.passes| && s.passes[j].GoingOn?
    ensures s.passes[..j] + s.passes[j + 1..] == [] && Between(s.(passes := []), s.passes[j].rest)
  {
    var p := s.passes[j];
    assert p in s.passes && s.passes == [p];
    assert SendingNow(s) == {};
  }

  lemma GoesOnInv(s: Queue, j: nat, now: int)
    requires Inv(s) && j < |s.passes| && s.passes[j].GoingOn?
    ensures Inv(Continue(s, j, now))
  {
    GoesOnBetween(s, j);
    GoOnInv(s.(passes := []), s.passes[j].rest, now);
  }

  lemma StepKeepsInv(s: Queue, t: Timed)
    requires Inv(s) && Enabled(s, t)
    ensures Inv(Next(s, t))
  {
    match t.action
    case Add(id) => AddInv(s, id, t.at);
    case Timer(i) => TimerInv(s, i, t.at);
    case Return(j, r) => ReturnInv(s, j, r, t.at);
    case GoesOn(j) => GoesOnInv(s, j, t.at);
  }

  lemma {:induction false} InvAfter(s: Queue, acts: seq<Timed>)
    requires Inv(s) && Legal(s, acts)
    ensures Inv(Run(s, acts))
    decreases |acts|
  {
    if acts != [] {
      StepKeepsInv(s, acts[0]);
      InvAfter(Next(s, acts[0]), acts[1..]);
    }
  }

  lemma EmptyInv()
    ensures Inv(EMPTY)
  {
  }

  // ----- the count of deliveries -----

  ghost function WithStatus(records: map<nat, Delivery>, status: Status): set<nat> {
    set id | id in records && records[id].status == status
  }

  ghost function PendingIds(records: map<nat, Delivery>): set<nat> {
    set id | id in records && Pending(records[id])
  }

  lemma {:induction false} DistinctSize(q: seq<QueueEntry>)
    requires DistinctIds(q)
    ensures |(set e | e in q :: e.id)| == |q|
  {
    if q != [] {
      var before, e := q[..|q| - 1], q[|q| - 1];
      DistinctSize(before);
      assert q == before + [e];
      assert (set x | x in q :: x.id) == (set x | x in before :: x.id) + {e.id};
      assert e.id !in (set x | x in before :: x.id);
    } else {
      assert (set e | e in q :: e.id) == {};
    }
  }

  lemma DepthIsPending(s: Queue)
    requires Inv(s)
    ensures Depth(s.queue, s.records) == |PendingIds(s.records)|
  {
    var u := Unsettled(s.queue, s.records);
    UnsettledFacts(s.queue, s.records);
    DistinctSize(u);
    assert (set e | e in u :: e.id) == PendingIds(s.records) by {
      forall id | id in PendingIds(s.records)
        ensures id in (set e | e in u :: e.id)
      {
        var i :| 0 <= i < |s.queue| && s.queue[i].id == id;
        assert s.queue[i] in u;
      }
    }
  }

  // Every delivery ever made is sent, failed or counted by the depth, and by one of them only.
  lemma {:induction false} NothingIsLost(acts: seq<Timed>)
    requires Legal(EMPTY, acts)
    ensures var s := Run(EMPTY, acts);
            |WithStatus(s.records, Sent)| + |WithStatus(s.records, Failed)| +
              Depth(s.queue, s.records) == |s.records|
  {
    EmptyInv();
    InvAfter(EMPTY, acts);
    var s := Run(EMPTY, acts);
    DepthIsPending(s);
    StatusPartition(s.records);
  }

  lemma StatusPartition(records: map<nat, Delivery>)
    ensures |WithStatus(records, Sent)| + |WithStatus(records, Failed)| + |PendingIds(records)| == |records|
  {
    var sent, failed, pending := WithStatus(records, Sent), WithStatus(records, Failed), PendingIds(records);
    assert records.Keys == sent + failed + pending;
    assert |sent + failed| == |sent| + |failed|;
    assert |records.Keys| == |records|;
  }

  // At most one pass is scheduled or under way, attempts stay within the limit, and as long as a delivery is
  // pending a pass is coming.
  lemma {:induction false} OnePassNoLostWakeUp(acts: seq<Timed>)
    requires Legal(EMPTY, acts)
    ensures var s := Run(EMPTY, acts);
            && |s.timers| + |s.passes| <= 1
            && (forall id | id in s.records :: s.records[id].attempts <= MAX_RETRIES)
            && (PendingIds(s.records) != {} ==> |s.timers| + |s.passes| == 1)
  {
    EmptyInv();
    InvAfter(EMPTY, acts);
    var s := Run(EMPTY, acts);
    if id :| id in PendingIds(s.records) {
      assert Queues(s.queue, id);
    }
  }

  // ----- progress -----

  // Attempts a queued delivery may still use.
  ghost function Budget(records: map<nat, Delivery>, id: nat): nat {
    if PendingIn(records, id) && records[id].attempts < MAX_RETRIES then MAX_RETRIES - records[id].attempts else 0
  }

  ghost function Total(q: seq<QueueEntry>, records: map<nat, Delivery>): nat {
    if q == [] then 0 else Total(q[..|q| - 1], records) + Budget(records, q[|q| - 1].id)
  }

  // A pass that is sending has to settle and to go on, one that is going on only the latter.
  ghost function Steps(passes: seq<Pass>): nat {
    if passes == [] then 0 else Steps(passes[1..]) + if passes[0].Sending? then 2 else 1
  }

  ghost function Measure(s: Queue): nat {
    3 * Total(s.queue, s.records) + Steps(s.passes)
  }

  lemma {:induction false} TotalShrinks(q: seq<QueueEntry>, records: map<nat, Delivery>, records': map<nat, Delivery>)
    requires forall id :: Budget(records', id) <= Budget(records, id)
    ensures Total(q, records') <= Total(q, records)
  {
    if q != [] {
      TotalShrinks(q[..|q| - 1], records, records');
    }
  }

  lemma {:induction false} TotalAttempt(q: seq<QueueEntry>, records: map<nat, Delivery>, id: nat, now: int)
    requires Queues(q, id) && PendingIn(records, id) && records[id].attempts < MAX_RETRIES
    ensures Total(q, Attempt(records, id, now)) < Total(q, records)
  {
    var records' := Attempt(records, id, now);
    var before, e := q[..|q| - 1], q[|q| - 1];
    TotalShrinks(before, records, records');
    if e.id != id {
      var i :| 0 <= i < |q| && q[i].id == id;
      assert before[i].id == id;
      TotalAttempt(before, records, id, now);
    }
  }

  lemma {:induction false} TotalUnsettled(q: seq<QueueEntry>, records: map<nat, Delivery>)
    ensures Total(Unsettled(q, records), records) == Total(q, records)
  {
    if q != [] {
      var before, e := q[..|q| - 1], q[|q| - 1];
      TotalUnsettled(before, records);
      var u := Unsettled(before, records);
      assert (u + [e])[..|u|] == u;
      assert u + [] == u;
    }
  }

  lemma {:induction false} TotalPostponed(q: seq<QueueEntry>, records: map<nat, Delivery>, id: nat, at: int)
    ensures Total(Postponed(q, id, at), records) == Total(q, records)
  {
    if q != [] {
      TotalPostponed(q[..|q| - 1], records, id, at);
      assert Postponed(q, id, at)[..|q| - 1] == Postponed(q[..|q| - 1], id, at);
    }
  }

  lemma GoOnProgress(s: Queue, ids: seq<nat>, now: int)
    requires Between(s, ids)
    ensures if ids == [] then Measure(GoOn(s, ids, now)) == Measure(s) else Measure(GoOn(s, ids, now)) < Measure(s)
  {
    if ids == [] {
      TotalUnsettled(s.queue, s.records);
    } else {
      assert ids[0] in ids;
      TotalAttempt(s.queue, s.records, ids[0], now);
      assert GoOn(s, ids, now).passes == [Sending(ids[0], ids[1..])];
      assert Steps([Sending(ids[0], ids[1..])]) == Steps([]) + 2 by {
        assert [Sending(ids[0], ids[1..])][1..] == [];
      }
    }
  }

  lemma TimerProgress(s: Queue, i: nat, now: int)
    requires Inv(s) && i < |s.timers| && s.timers[i] <= now
    ensures Measure(Fire(s, i, now)) < Measure(s)
  {
    TimerBetween(s, i, now);
    assert s.timers[..i] + s.timers[i + 1..] == [];
    GoOnProgress(s.(timers := []), Ready(s.queue, s.records, now), now);
  }

  lemma SettleShrinks(s: Queue, id: nat, r: SendResult, now: int)
    requires PendingIn(s.records, id)
    ensures Total(Settle(s, id, r, now).queue, Settle(s, id, r, now).records) <= Total(s.queue, s.records)
  {
    var s' := Settle(s, id, r, now);
    TotalShrinks(s'.queue, s.records, s'.records);
    TotalPostponed(s.queue, s.records, id, now + BackoffMs(s.records[id].attempts));
  }

  lemma ReturnProgress(s: Queue, j: nat, r: SendResult, now: int)
    requires Inv(s) && j < |s.passes| && s.passes[j].Sending?
    ensures Measure(Resolve(s, j, r, now)) < Measure(s)
  {
    var p := s.passes[j];
    assert p in s.passes && p.current in Unsent(p);
    ReturnInv(s, j, r, now);
    SettleShrinks(s, p.current, r, now);
    assert s.passes == [p] && Resolve(s, j, r, now).passes == [GoingOn(p.rest)];
  }

  lemma GoesOnProgress(s: Queue, j: nat, now: int)
    requires Inv(s) && j < |s.passes| && s.passes[j].GoingOn?
    ensures Measure(Continue(s, j, now)) < Measure(s)
  {
    GoesOnBetween(s, j);
    GoOnProgress(s.(passes := []), s.passes[j].rest, now);
  }

  // Every step but an enqueue makes the measure smaller.
  lemma StepProgress(s: Queue, t: Timed)
    requires Inv(s) && Enabled(s, t) && !t.action.Add?
    ensures Measure(Next(s, t)) < Measure(s)
  {
    match t.action
    case Timer(i) => TimerProgress(s, i, t.at);
    case Return(j, r) => ReturnProgress(s, j, r, t.at);
    case GoesOn(j) => GoesOnProgress(s, j, t.at);
  }

  lemma {:induction false} RunsEnd(s: Queue, acts: seq<Timed>)
    requires Inv(s) && Legal(s, acts) && forall t | t in acts :: !t.action.Add?
    ensures |acts| + Measure(Run(s, acts)) <= Measure(s)
    decreases |acts|
  {
    if acts != [] {
      StepProgress(s, acts[0]);
      StepKeepsInv(s, acts[0]);
      RunsEnd(Next(s, acts[0]), acts[1..]);
    }
  }

  // From any reachable state, once nothing is enqueued any more there are only so many steps left, and when no
  // timer and no send is left every delivery has settled.
  lemma {:induction false} EveryDeliverySettles(acts: seq<Timed>, more: seq<Timed>)
    requires Legal(EMPTY, acts) && Legal(Run(EMPTY, acts), more) && forall t | t in more :: !t.action.Add?
    ensures |more| <= Measure(Run(EMPTY, acts))
    ensures var s := Run(Run(EMPTY, acts), more);
            s.timers == [] && s.passes == [] ==>
              s.queue == [] &&
              forall id | id in s.records :: s.records[id].status == Sent || s.records[id].status == Failed
  {
    EmptyInv();
    InvAfter(EMPTY, acts);
    InvAfter(Run(EMPTY, acts), more);
    RunsEnd(Run(EMPTY, acts), more);
    var s := Run(Run(EMPTY, acts), more);
    forall id | s.timers == [] && s.passes == [] && id in s.records
      ensures s.records[id].status == Sent || s.records[id].status == Failed
    {
    }
  }

  // A delivery is postponed by two seconds after its first attempt and by four after its second; there is no
  // longer wait. It fails for good exactly when it is refused as final or has used three attempts.
  lemma BackoffAndFailure(s: Queue, j: nat, r: SendResult, now: int)
    requires Inv(s) && j < |s.passes| && s.passes[j].Sending?
    ensures s.passes[j].current in s.records
    ensures var id := s.passes[j].current;
            var d := s.records[id];
            var s' := Resolve(s, j, r, now);
            && id in s'.records
            && (s'.records[id].status == Retried <==> r != Accepted && r != Refused(false) && d.attempts < 3)
            && (s'.records[id].status == Failed <==> r != Accepted && (r == Refused(false) || d.attempts == 3))
            && (s'.records[id].status == Retried ==>
                  forall e | e in s'.queue && e.id == id ::
                    e.nextRetryAt == now + if d.attempts == 1 then 2000 else 4000)
  {
    var p := s.passes[j];
    assert p in s.passes;
    assert Power2(1) == 2 && Power2(2) == 4;
  }

  // The end of a send touches its own delivery only: no other record changes, no other entry is postponed, nor is its
  // own unless it is to be tried again, and every entry keeps its place.
  lemma SettlesItsOwnOnly(s: Queue, j: nat, r: SendResult, now: int)
    requires Inv(s) && j < |s.passes| && s.passes[j].Sending?
    ensures var id := s.passes[j].current;
            var s' := Resolve(s, j, r, now);
            && id in s.records && s'.records.Keys == s.records.Keys
            && (forall x | x in s.records && x != id :: s'.records[x] == s.records[x])
            && s'.records[id] == s.records[id].(status := s'.records[id].status)
            && |s'.queue| == |s.queue| && (s'.records[id].status != Retried ==> s'.queue == s.queue)
            && (forall i | 0 <= i < |s.queue| ::
                  s'.queue[i].id == s.queue[i].id && (s.queue[i].id != id ==> s'.queue[i] == s.queue[i]))
            && s'.timers == s.timers && s'.processing == s.processing
  {
    assert s.passes[j] in s.passes;
  }
}
