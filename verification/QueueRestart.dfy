/** Restarts of the delivery queue: what is saved can be put back at any later time, in a new process. */
module QueueRestart {
  import opened QueueSpec
  import opened QueueRuns
  import opened QueueSafety

  ghost function Restarted(saved: Queue, now: int): Queue {
    Restore(EMPTY, saved.queue, saved.records, now)
  }

  ghost predicate AttemptsBounded(s: Queue) {
    forall id | id in s.records :: s.records[id].attempts <= MAX_RETRIES
  }

  // A delivery was saved in the middle of its last attempt: the attempt is counted and not settled.
  ghost predicate InLastAttempt(s: Queue) {
    exists p | p in s.passes :: p.Sending? && p.current in s.records && s.records[p.current].attempts == MAX_RETRIES
  }

  // A queue that was put back and whose first pass has not begun.
  ghost predicate Waiting(s: Queue) {
    Consistent(s) && s.processing && |s.timers| == 1 && s.passes == [] && Bounded(s, {})
  }

  ghost predicate Sound(s: Queue) {
    Waiting(s) || Inv(s)
  }

  // ----- no delivery was in its last attempt -----

  lemma RestartIsSound(saved: Queue, now: int)
    requires Sound(saved) && !InLastAttempt(saved)
    ensures Sound(Restarted(saved, now))
  {
    var s := Restarted(saved, now);
    forall id | id in s.records && Pending(s.records[id])
      ensures s.records[id].attempts < MAX_RETRIES
    {
      if id in SendingNow(saved) {
        var p :| p in saved.passes && p.Sending? && p.current == id;
      }
    }
    if saved.queue == [] {
      assert SendingNow(s) == {};
    }
  }

  lemma WaitingStep(s: Queue, t: Timed)
    requires Waiting(s) && Enabled(s, t)
    ensures Sound(Next(s, t))
  {
    if t.action.Add? {
      AddConsistent(s, t.action.id, t.at);
    } else {
      var ready := Ready(s.queue, s.records, t.at);
      ReadyFacts(s.queue, s.records, t.at);
      assert s.timers[..t.action.i] + s.timers[t.action.i + 1..] == [];
      GoOnInv(s.(timers := []), ready, t.at);
    }
  }

  lemma {:induction false} SoundAfter(s: Queue, acts: seq<Timed>)
    requires Sound(s) && Legal(s, acts)
    ensures Sound(Run(s, acts))
    decreases |acts|
  {
    if acts != [] {
      if Waiting(s) {
        WaitingStep(s, acts[0]);
      } else {
        StepKeepsInv(s, acts[0]);
      }
      SoundAfter(Next(s, acts[0]), acts[1..]);
    }
  }

  // ----- a delivery was in its last attempt -----

  lemma {:induction false} RunConcat(s: Queue, a: seq<Timed>, b: seq<Timed>)
    requires Legal(s, a) && Legal(Run(s, a), b)
    ensures Legal(s, a + b) && Run(s, a + b) == Run(Run(s, a), b)
    decreases |a|
  {
    if a == [] {
      assert [] + b == b;
    } else {
      assert (a + b)[0] == a[0] && (a + b)[1..] == a[1..] + b;
      RunConcat(Next(s, a[0]), a[1..], b);
    }
  }

  // A pass whose current send is accepted goes on with the next; other deliveries stay as they are.
  lemma AcceptAndGoOn(s: Queue, x: nat, now: int)
    requires |s.passes| == 1 && s.passes[0].Sending? && s.passes[0].rest != [] && Distinct(Unsent(s.passes[0]))
    requires x in s.records && x != s.passes[0].current
    ensures var rest := s.passes[0].rest;
            var s1 := Resolve(s, 0, Accepted, now);
            var s2 := Continue(s1, 0, now);
            && s1.passes == [GoingOn(rest)] && s2.passes == [Sending(rest[0], rest[1..])]
            && Unsent(s2.passes[0]) == rest && Distinct(rest) && x in s2.records
            && s2.records[x].attempts == s.records[x].attempts + if x == rest[0] then 1 else 0
  {
    var p := s.passes[0];
    DistinctRest(Unsent(p));
    assert Unsent(p)[1..] == p.rest;
    assert Resolve(s, 0, Accepted, now).passes == [GoingOn(p.rest)];
  }

  // The pass comes to a delivery it has yet to send, if every send before is accepted.
  lemma {:induction false} PassReaches(s: Queue, x: nat, now: int) returns (acts: seq<Timed>)
    requires |s.passes| == 1 && s.passes[0].Sending? && Distinct(Unsent(s.passes[0])) && x in Unsent(s.passes[0])
    requires x in s.records
    requires s.records[x].attempts == if s.passes[0].current == x then MAX_RETRIES + 1 else MAX_RETRIES
    ensures Legal(s, acts) && x in Run(s, acts).records && Run(s, acts).records[x].attempts == MAX_RETRIES + 1
    decreases |s.passes[0].rest|
  {
    var p := s.passes[0];
    if p.current == x {
      acts := [];
    } else {
      var settle, go := Timed(Return(0, Accepted), now), Timed(GoesOn(0), now);
      hide Resolve, Continue;
      AcceptAndGoOn(s, x, now);
      var s1 := Next(s, settle);
      var s2 := Next(s1, go);
      var more := PassReaches(s2, x, now);
      acts := [settle, go] + more;
      assert acts[0] == settle && acts[1..][0] == go && acts[1..][1..] == more;
    }
  }

  // The first pass, begun late enough, includes it.
  lemma FirstPassIncludes(s: Queue, e: QueueEntry, at: int)
    requires Consistent(s) && |s.timers| == 1 && s.passes == []
    requires e in s.queue && PendingIn(s.records, e.id) && s.records[e.id].attempts == MAX_RETRIES &&
             e.nextRetryAt <= at
    ensures var s1 := Fire(s, 0, at);
            && |s1.passes| == 1 && s1.passes[0].Sending? && Distinct(Unsent(s1.passes[0])) &&
               e.id in Unsent(s1.passes[0])
            && e.id in s1.records
            && s1.records[e.id].attempts == if s1.passes[0].current == e.id then MAX_RETRIES + 1 else MAX_RETRIES
  {
    ReadyFacts(s.queue, s.records, at);
    var ready := Ready(s.queue, s.records, at);
    assert e.id in ready;
    var s1 := Fire(s, 0, at);
    assert s1.passes == [Sending(ready[0], ready[1..])] && Unsent(s1.passes[0]) == ready;
  }

  lemma SavedEntry(saved: Queue) returns (e: QueueEntry)
    requires Sound(saved) && InLastAttempt(saved)
    ensures e in saved.queue && PendingIn(saved.records, e.id) && saved.records[e.id].attempts == MAX_RETRIES
    ensures Consistent(saved)
  {
    var p :| p in saved.passes && p.Sending? && p.current in saved.records &&
             saved.records[p.current].attempts == MAX_RETRIES;
    assert PassOk(saved, p) && p.current in Unsent(p);
    var i :| 0 <= i < |saved.queue| && saved.queue[i].id == p.current;
    e := saved.queue[i];
  }

  lemma LastAttemptIsRepeated(saved: Queue, now: int) returns (more: seq<Timed>)
    requires Sound(saved) && InLastAttempt(saved)
    ensures Legal(Restarted(saved, now), more) && !AttemptsBounded(Run(Restarted(saved, now), more))
  {
    hide Fire, Consistent, Distinct, Inv, Sound, InLastAttempt;
    var e := SavedEntry(saved);
    var s := Restarted(saved, now);
    PutBack(saved, now);
    var first := Timed(Timer(0), if e.nextRetryAt < now then now else e.nextRetryAt);
    FirstPassIncludes(s, e, first.at);
    var rest := PassReaches(Next(s, first), e.id, first.at);
    more := [first] + rest;
    assert more[0] == first && more[1..] == rest;
  }

  lemma PutBack(saved: Queue, now: int)
    requires Consistent(saved) && saved.queue != []
    ensures var s := Restarted(saved, now);
            && Consistent(s) && s.timers == [now] && s.passes == [] &&
               s.queue == saved.queue && s.records == saved.records
  {
  }

  // A restart puts back exactly what was saved, and has one pass coming, at once, exactly when that holds anything.
  lemma RestartExactly(saved: Queue, now: int)
    ensures var s := Restarted(saved, now);
            && s.queue == saved.queue && s.records == saved.records && s.passes == []
            && s.timers == (if saved.queue == [] then [] else [now]) && (s.processing <==> saved.queue != [])
  {
  }

  // After any run, what is saved can be put back at any time without attempts ever exceeding their limit exactly when
  // no delivery was saved in the middle of its last attempt.
  lemma RestartKeepsTheLimitExactly(acts: seq<Timed>, now: int)
    requires Legal(EMPTY, acts)
    ensures var saved := Run(EMPTY, acts);
            !InLastAttempt(saved) <==>
            forall more | Legal(Restarted(saved, now), more) :: AttemptsBounded(Run(Restarted(saved, now), more))
  {
    EmptyInv();
    InvAfter(EMPTY, acts);
    var saved := Run(EMPTY, acts);
    if InLastAttempt(saved) {
      var more := LastAttemptIsRepeated(saved, now);
    } else {
      RestartIsSound(saved, now);
      forall more | Legal(Restarted(saved, now), more)
        ensures AttemptsBounded(Run(Restarted(saved, now), more))
      {
        SoundAfter(Restarted(saved, now), more);
      }
    }
  }

  // Then the other promises hold after the restart as well: one pass at most, and one coming while anything is pending.
  lemma RestartKeepsThePromises(acts: seq<Timed>, now: int, more: seq<Timed>)
    requires Legal(EMPTY, acts) && !InLastAttempt(Run(EMPTY, acts))
    requires Legal(Restarted(Run(EMPTY, acts), now), more)
    ensures var s := Run(Restarted(Run(EMPTY, acts), now), more);
            && |s.timers| + |s.passes| <= 1 && AttemptsBounded(s)
            && (PendingIds(s.records) != {} ==> |s.timers| + |s.passes| == 1)
  {
    EmptyInv();
    InvAfter(EMPTY, acts);
    RestartIsSound(Run(EMPTY, acts), now);
    SoundAfter(Restarted(Run(EMPTY, acts), now), more);
    var s := Run(Restarted(Run(EMPTY, acts), now), more);
    if id :| id in PendingIds(s.records) {
      assert Queues(s.queue, id);
    }
  }

  // ----- being saved in the last attempt -----

  // One delivery, waiting for its next attempt.
  ghost function Alone(id: nat, d: Delivery, due: int): Queue {
    Queue([QueueEntry(id, due)], map[id := d], true, [due], [])
  }

  ghost function Round(due: int): seq<Timed> {
    [Timed(Timer(0), due), Timed(Return(0, Threw), due), Timed(GoesOn(0), due)]
  }

  lemma AttemptBegins(id: nat, d: Delivery, due: int)
    requires Pending(d)
    ensures var s := Alone(id, d, due);
            && Enabled(s, Timed(Timer(0), due))
            && Next(s, Timed(Timer(0), due)) ==
               s.(timers := [], passes := [Sending(id, [])],
                  records := map[id := d.(attempts := d.attempts + 1, lastAttemptAt := due)])
  {
    var s := Alone(id, d, due);
    assert s.queue[..0] == [] && s.timers[..0] + s.timers[1..] == [];
    assert Ready(s.queue, s.records, due) == [id];
    assert [id][1..] == [];
  }

  lemma AttemptThrows(id: nat, d: Delivery, due: int)
    requires Pending(d) && d.attempts < MAX_RETRIES
    ensures var s := Queue([QueueEntry(id, due)], map[id := d], true, [], [Sending(id, [])]);
            Resolve(s, 0, Threw, due) ==
            Queue([QueueEntry(id, due + BackoffMs(d.attempts))], map[id := d.(status := Retried)],
                  true, [], [GoingOn([])])
  {
  }

  lemma PassIsRescheduled(id: nat, d: Delivery, due: int, now: int)
    requires Pending(d) && now <= due
    ensures Continue(Queue([QueueEntry(id, due)], map[id := d], true, [], [GoingOn([])]), 0, now) == Alone(id, d, due)
  {
    var q := [QueueEntry(id, due)];
    assert q[..0] == [];
    assert Unsettled(q, map[id := d]) == q;
  }

  lemma {:induction false} RunThree(s: Queue, acts: seq<Timed>, s1: Queue, s2: Queue, s3: Queue)
    requires |acts| == 3
    requires Enabled(s, acts[0]) && s1 == Next(s, acts[0])
    requires Enabled(s1, acts[1]) && s2 == Next(s1, acts[1])
    requires Enabled(s2, acts[2]) && s3 == Next(s2, acts[2])
    ensures Legal(s, acts) && Run(s, acts) == s3
  {
    var rest, last := acts[1..], acts[1..][1..];
    assert rest[0] == acts[1] && last[0] == acts[2] && last[1..] == [];
    assert Legal(s2, last) && Run(s2, last) == s3;
    assert Legal(s1, rest) && Run(s1, rest) == s3;
  }

  // An attempt that throws, with attempts left.
  lemma OneRound(id: nat, d: Delivery, due: int)
    requires Pending(d) && d.attempts + 1 < MAX_RETRIES
    ensures var d' := Delivery(Retried, d.attempts + 1, due);
            && Legal(Alone(id, d, due), Round(due))
            && Run(Alone(id, d, due), Round(due)) == Alone(id, d', due + BackoffMs(d.attempts + 1))
  {
    hide Fire, Resolve, Continue;
    var s, sent := Alone(id, d, due), d.(attempts := d.attempts + 1, lastAttemptAt := due);
    AttemptBegins(id, d, due);
    AttemptThrows(id, sent, due);
    PassIsRescheduled(id, sent.(status := Retried), due + BackoffMs(sent.attempts), due);
    var s1 := Next(s, Round(due)[0]);
    var s2 := Next(s1, Round(due)[1]);
    RunThree(s, Round(due), s1, s2, Next(s2, Round(due)[2]));
  }

  lemma FirstAdd(id: nat, now: int)
    ensures Legal(EMPTY, [Timed(Add(id), now)])
    ensures Run(EMPTY, [Timed(Add(id), now)]) == Alone(id, Delivery(Queued, 0, 0), now)
  {
    assert [Timed(Add(id), now)][1..] == [];
    assert Legal(Next(EMPTY, Timed(Add(id), now)), []);
  }

  lemma AddInLastAttempt(id: nat, d: Delivery, other: nat, now: int)
    requires id != other && Pending(d) && d.attempts == MAX_RETRIES - 1
    ensures var last := [Timed(Timer(0), now), Timed(Add(other), now)];
            Legal(Alone(id, d, now), last) && InLastAttempt(Run(Alone(id, d, now), last))
  {
    var last := [Timed(Timer(0), now), Timed(Add(other), now)];
    AttemptBegins(id, d, now);
    var s := Next(Alone(id, d, now), last[0]);
    var s' := Next(s, last[1]);
    assert Sending(id, []) in s'.passes;
    assert last[1..][0] == last[1] && last[1..][1..] == [];
    assert Legal(s', []) && Run(s', []) == s';
    assert Legal(s, last[1..]) && Run(s, last[1..]) == s';
  }

  // Every attempt of a delivery throws: six seconds later its last attempt is under way, and a queue saved then, as
  // enqueueing another message does, holds it.
  lemma LastAttemptIsSaved(id: nat, other: nat, now: int)
    requires id != other
    ensures var acts := [Timed(Add(id), now)] + Round(now) + Round(now + 2000) +
                        [Timed(Timer(0), now + 6000), Timed(Add(other), now + 6000)];
            Legal(EMPTY, acts) && InLastAttempt(Run(EMPTY, acts))
  {
    hide Alone, Round, Next, InLastAttempt;
    assert BackoffMs(1) == 2000 && BackoffMs(2) == 4000 by {
      assert Power2(1) == 2 && Power2(2) == 4;
    }
    var start := [Timed(Add(id), now)];
    FirstAdd(id, now);
    OneRound(id, Delivery(Queued, 0, 0), now);
    RunConcat(EMPTY, start, Round(now));
    OneRound(id, Delivery(Retried, 1, now), now + 2000);
    RunConcat(EMPTY, start + Round(now), Round(now + 2000));
    AddInLastAttempt(id, Delivery(Retried, 2, now + 2000), other, now + 6000);
    RunConcat(EMPTY, start + Round(now) + Round(now + 2000),
              [Timed(Timer(0), now + 6000), Timed(Add(other), now + 6000)]);
  }
}
