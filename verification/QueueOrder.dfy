/** The order of the delivery queue: every pass sends what is due in the order in which it was enqueued. */
module QueueOrder {
  import opened QueueSpec
  import opened QueueRuns
  import opened QueueSafety

  // x comes before y.
  ghost predicate Before(ids: seq<nat>, x: nat, y: nat) {
    exists i, j :: 0 <= i < j < |ids| && ids[i] == x && ids[j] == y
  }

  // The ids enqueued in a run, in order.
  ghost function Added(acts: seq<Timed>): seq<nat> {
    if acts == [] then []
    else (if acts[0].action.Add? then [acts[0].action.id] else []) + Added(acts[1..])
  }

  ghost predicate QueueInOrder(q: seq<QueueEntry>, added: seq<nat>) {
    && (forall e | e in q :: e.id in added)
    && forall i, j | 0 <= i < j < |q| :: Before(added, q[i].id, q[j].id)
  }

  // ----- what is due -----

  // The ids of the pass are those of the due pending entries, by ascending position in the queue.
  lemma {:induction false} ReadyInOrder(q: seq<QueueEntry>, records: map<nat, Delivery>, now: int)
    returns (at: seq<nat>)
    ensures |at| == |Ready(q, records, now)|
    ensures forall k | 0 <= k < |at| ::
              at[k] < |q| && Ready(q, records, now)[k] == q[at[k]].id && PendingIn(records, q[at[k]].id) &&
              q[at[k]].nextRetryAt <= now
    ensures forall k, l | 0 <= k < l < |at| :: at[k] < at[l]
    ensures forall i | 0 <= i < |q| && PendingIn(records, q[i].id) && q[i].nextRetryAt <= now :: i in at
  {
    if q == [] {
      at := [];
    } else {
      var last := |q| - 1;
      at := ReadyInOrder(q[..last], records, now);
      if PendingIn(records, q[last].id) && q[last].nextRetryAt <= now {
        at := at + [last];
      }
    }
  }

  // What a pass leaves in the queue keeps its order.
  lemma {:induction false} UnsettledInOrder(q: seq<QueueEntry>, records: map<nat, Delivery>, added: seq<nat>)
    requires QueueInOrder(q, added)
    ensures QueueInOrder(Unsettled(q, records), added)
  {
    hide Before;
    if q != [] {
      var before, e := q[..|q| - 1], q[|q| - 1];
      assert forall x | x in before :: x in q;
      UnsettledInOrder(before, records, added);
      UnsettledFacts(before, records);
      var u := Unsettled(before, records);
      forall i | 0 <= i < |u|
        ensures Before(added, u[i].id, e.id)
      {
        assert u[i] in before;
        var k :| 0 <= k < |before| && before[k] == u[i];
        assert Before(added, q[k].id, q[|q| - 1].id);
      }
    }
  }

  lemma AddKeepsOrder(q: seq<QueueEntry>, added: seq<nat>, e: QueueEntry)
    requires QueueInOrder(q, added)
    ensures QueueInOrder(q + [e], added + [e.id])
  {
    var longer := added + [e.id];
    forall i, j | 0 <= i < j < |q| + 1
      ensures Before(longer, (q + [e])[i].id, (q + [e])[j].id)
    {
      if j < |q| {
        assert Before(added, q[i].id, q[j].id);
        var k, l :| 0 <= k < l < |added| && added[k] == q[i].id && added[l] == q[j].id;
        assert longer[k] == q[i].id && longer[l] == q[j].id;
      } else {
        assert q[i] in q;
        var k :| 0 <= k < |added| && added[k] == q[i].id;
        assert longer[k] == q[i].id && longer[|added|] == e.id;
      }
    }
  }

  lemma PostponedKeepsOrder(q: seq<QueueEntry>, added: seq<nat>, id: nat, at: int)
    requires QueueInOrder(q, added)
    ensures QueueInOrder(Postponed(q, id, at), added)
  {
    var q' := Postponed(q, id, at);
    forall e | e in q'
      ensures e.id in added
    {
      var k :| 0 <= k < |q'| && q'[k] == e;
      assert q[k] in q;
    }
    forall i, j | 0 <= i < j < |q'|
      ensures Before(added, q'[i].id, q'[j].id)
    {
      assert Before(added, q[i].id, q[j].id);
    }
  }

  lemma StepKeepsOrder(s: Queue, t: Timed, added: seq<nat>)
    requires Enabled(s, t) && QueueInOrder(s.queue, added)
    ensures QueueInOrder(Next(s, t).queue, added + Added([t]))
  {
    assert added + [] == added && [t][1..] == [];
    match t.action
    case Add(id) =>
      AddKeepsOrder(s.queue, added, QueueEntry(id, t.at));
      assert Added([t]) == [id] && Next(s, t).queue == s.queue + [QueueEntry(id, t.at)];
    case Return(j, r) =>
      var id := s.passes[j].current;
      if id in s.records {
        PostponedKeepsOrder(s.queue, added, id, t.at + BackoffMs(s.records[id].attempts));
      }
    case _ =>
      UnsettledInOrder(s.queue, s.records, added);
  }

  lemma AddedFirst(acts: seq<Timed>, added: seq<nat>)
    requires acts != []
    ensures added + Added(acts) == added + Added([acts[0]]) + Added(acts[1..])
  {
    var first := if acts[0].action.Add? then [acts[0].action.id] else [];
    assert [acts[0]][1..] == [];
    assert Added([acts[0]]) == first + Added([]);
    Regrouped(added, first, Added(acts[1..]));
  }

  lemma Regrouped<T>(a: seq<T>, b: seq<T>, c: seq<T>)
    ensures a + (b + c) == a + b + c && b + [] == b
  {
  }

  lemma {:induction false} OrderKept(s: Queue, acts: seq<Timed>, added: seq<nat>)
    requires Legal(s, acts) && QueueInOrder(s.queue, added)
    ensures QueueInOrder(Run(s, acts).queue, added + Added(acts))
    decreases |acts|
  {
    hide QueueInOrder, Next;
    if acts == [] {
      assert added + [] == added;
    } else {
      AddedFirst(acts, added);
      hide Added;
      StepKeepsOrder(s, acts[0], added);
      OrderKept(Next(s, acts[0]), acts[1..], added + Added([acts[0]]));
    }
  }

  // ----- what a pass sends -----

  // The deliveries whose send a step starts: at most the first of the pass.
  ghost function SendOf(s: Queue): seq<nat> {
    if |s.passes| == 1 && s.passes[0].Sending? then [s.passes[0].current] else []
  }

  // The deliveries sent during a run, in order.
  ghost function Sends(s: Queue, acts: seq<Timed>): seq<nat>
    requires Legal(s, acts)
    decreases |acts|
  {
    if acts == [] then []
    else
      var s' := Next(s, acts[0]);
      (if acts[0].action.Timer? || acts[0].action.GoesOn? then SendOf(s') else []) + Sends(s', acts[1..])
  }

  // What the pass under way has yet to send.
  ghost function ToSend(s: Queue): seq<nat> {
    if |s.passes| == 1 then s.passes[0].rest else []
  }

  ghost predicate OnePass(s: Queue) {
    |s.passes| <= 1 && (s.passes != [] ==> s.timers == [])
  }

  lemma SendStep(s: Queue, t: Timed)
    requires OnePass(s) && Enabled(s, t) && !t.action.Timer? && (s.processing || !t.action.Add?)
    ensures var s' := Next(s, t);
            ToSend(s) == (if t.action.GoesOn? then SendOf(s') else []) + ToSend(s')
  {
    if t.action.GoesOn? {
      var p := s.passes[0];
      assert s.passes == [p] && s.passes[..0] + s.passes[1..] == [];
      if p.rest != [] {
        assert p.rest == [p.rest[0]] + p.rest[1..];
      }
    }
  }

  lemma InvIsOnePass(s: Queue)
    requires Inv(s)
    ensures OnePass(s) && (s.passes != [] ==> s.processing)
  {
  }

  lemma PassIsOver(s: Queue)
    requires s.passes == []
    ensures ToSend(s) == []
  {
  }

  // Until the next timer fires, the pass sends what it has yet to send, in that order.
  lemma {:induction false} PassSendsInOrder(s: Queue, acts: seq<Timed>)
    requires Inv(s) && Legal(s, acts) && s.passes != [] && forall t | t in acts :: !t.action.Timer?
    ensures Sends(s, acts) + ToSend(Run(s, acts)) == ToSend(s)
    decreases |acts|
  {
    hide Inv, Next, OnePass, SendOf, ToSend;
    if acts != [] {
      var t := acts[0];
      var s' := Next(s, t);
      assert t in acts && forall u | u in acts[1..] :: u in acts;
      PassStep(s, t);
      if s'.passes != [] {
        PassSendsInOrder(s', acts[1..]);
      } else {
        NothingToSend(s', acts[1..]);
        PassIsOver(s');
        PassIsOver(Run(s', acts[1..]));
      }
      Regrouped(if t.action.GoesOn? then SendOf(s') else [], Sends(s', acts[1..]), ToSend(Run(s', acts[1..])));
    }
  }

  lemma PassStep(s: Queue, t: Timed)
    requires Inv(s) && Enabled(s, t) && s.passes != [] && !t.action.Timer?
    ensures Inv(Next(s, t))
    ensures ToSend(s) == (if t.action.GoesOn? then SendOf(Next(s, t)) else []) + ToSend(Next(s, t))
  {
    InvIsOnePass(s);
    SendStep(s, t);
    StepKeepsInv(s, t);
  }

  lemma {:induction false} NothingToSend(s: Queue, acts: seq<Timed>)
    requires Legal(s, acts) && s.passes == [] && forall t | t in acts :: !t.action.Timer?
    ensures Sends(s, acts) == [] && Run(s, acts).passes == []
    decreases |acts|
  {
    if acts != [] {
      assert acts[0] in acts && forall u | u in acts[1..] :: u in acts;
      NothingToSend(Next(s, acts[0]), acts[1..]);
    }
  }

  // What a firing timer makes the pass send.
  lemma FireStarts(s: Queue, i: nat, now: int)
    requires Inv(s) && i < |s.timers| && s.timers[i] <= now
    ensures var s', ready := Fire(s, i, now), Ready(s.queue, s.records, now);
            Inv(s') && s'.passes != [] && ready == SendOf(s') + ToSend(s')
  {
    var ready := Ready(s.queue, s.records, now);
    TimerBetween(s, i, now);
    TimerInv(s, i, now);
    assert Fire(s, i, now).passes == [Sending(ready[0], ready[1..])];
    assert ready == [ready[0]] + ready[1..];
  }

  lemma ReadyAsAdded(q: seq<QueueEntry>, records: map<nat, Delivery>, now: int, added: seq<nat>)
    requires QueueInOrder(q, added)
    ensures var ready := Ready(q, records, now);
            forall k, l | 0 <= k < l < |ready| :: Before(added, ready[k], ready[l])
  {
    var ready := Ready(q, records, now);
    var at := ReadyInOrder(q, records, now);
    forall k, l | 0 <= k < l < |ready|
      ensures Before(added, ready[k], ready[l])
    {
      assert at[k] < at[l];
    }
  }

  // A pass sends what was due when it began, from the first on, and all of it by the time it is over.
  lemma PassSendsReady(s: Queue, i: nat, now: int, more: seq<Timed>)
    requires Inv(s) && i < |s.timers| && s.timers[i] <= now
    requires Legal(Fire(s, i, now), more) && forall t | t in more :: !t.action.Timer?
    ensures var s', ready := Fire(s, i, now), Ready(s.queue, s.records, now);
            var sends := SendOf(s') + Sends(s', more);
            sends <= ready && (Run(s', more).passes == [] ==> sends == ready)
  {
    hide Inv, Fire, SendOf;
    var s' := Fire(s, i, now);
    FireStarts(s, i, now);
    PassSendsInOrder(s', more);
    assert SendOf(s') + (Sends(s', more) + ToSend(Run(s', more))) ==
           SendOf(s') + Sends(s', more) + ToSend(Run(s', more));
  }

  lemma QueueAsAdded(acts: seq<Timed>)
    requires Legal(EMPTY, acts)
    ensures Inv(Run(EMPTY, acts)) && QueueInOrder(Run(EMPTY, acts).queue, Added(acts))
  {
    EmptyInv();
    InvAfter(EMPTY, acts);
    OrderKept(EMPTY, acts, []);
    assert [] + Added(acts) == Added(acts);
  }

  // First come, first served: a pass, begun at any moment of any run, sends what was due when it began, all of it by
  // the time it is over, and of two such deliveries the one that was enqueued first.
  lemma FirstComeFirstServed(acts: seq<Timed>, i: nat, now: int, more: seq<Timed>)
    requires Legal(EMPTY, acts) && Enabled(Run(EMPTY, acts), Timed(Timer(i), now))
    requires Legal(Fire(Run(EMPTY, acts), i, now), more) && forall t | t in more :: !t.action.Timer?
    ensures var s := Run(EMPTY, acts);
            var sends := SendOf(Fire(s, i, now)) + Sends(Fire(s, i, now), more);
            && sends <= Ready(s.queue, s.records, now)
            && (Run(Fire(s, i, now), more).passes == [] ==> sends == Ready(s.queue, s.records, now))
            && forall k, l | 0 <= k < l < |sends| :: Before(Added(acts), sends[k], sends[l])
  {
    hide Inv, Fire, SendOf, Sends, QueueInOrder, Before;
    var s := Run(EMPTY, acts);
    QueueAsAdded(acts);
    PassSendsReady(s, i, now, more);
    ReadyAsAdded(s.queue, s.records, now, Added(acts));
  }
}
