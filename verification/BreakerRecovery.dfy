/** When a breaker can no longer recover by itself: a callee that throws before it returns a promise leaves the probe
    gate raised, and nothing but a trip or a reset may lower it again. */
module BreakerRecovery {
  import opened BreakerSpec
  import opened BreakerRuns
  import opened BreakerSafety

  ghost predicate Manual(a: Action) {
    a.Trip? || a.Reset?
  }

  ghost predicate NoManual(acts: seq<Timed>) {
    forall t | t in acts :: !Manual(t.action)
  }

  ghost predicate Admits(c: Config, w: World, now: int) {
    w.clock <= now && !Start(c, w.b, now).1.Rejected?
  }

  // Some run without a trip or a reset gets a call admitted.
  ghost predicate CanRecover(c: Config, w: World) {
    exists acts: seq<Timed>, now: int :: NoManual(acts) && Legal(c, w, acts) && Admits(c, Run(c, w, acts), now)
  }

  // The gate is full, no probe is under way to come back, and the calls still under way from before the breaker opened
  // cannot open it either: there are none, or too few of them to reach the failure threshold within the window.
  ghost predicate Stuck(c: Config, w: World) {
    && w.b.state == HalfOpen && w.b.inflight >= c.halfOpenMax && w.probes == 0
    && (w.normals == 0 || |Recent(c, w)| + w.normals < c.failureThreshold)
  }

  ghost function Recent(c: Config, w: World): seq<int> {
    FrontPrune(w.b.failures, w.clock - c.windowMs)
  }

  // ----- pruning -----

  lemma {:induction false} PruneTwice(ts: seq<int>, early: int, cutoff: int)
    requires early <= cutoff
    ensures FrontPrune(FrontPrune(ts, early), cutoff) == FrontPrune(ts, cutoff)
    ensures |FrontPrune(ts, cutoff)| <= |FrontPrune(ts, early)|
  {
    if ts != [] && ts[0] < early {
      PruneTwice(ts[1..], early, cutoff);
    } else {
      FrontPruneShrinks(ts, cutoff);
    }
  }

  lemma {:induction false} PruneAppended(ts: seq<int>, cutoff: int, t: int)
    requires cutoff <= t
    ensures FrontPrune(ts + [t], cutoff) == FrontPrune(ts, cutoff) + [t]
  {
    if ts != [] && ts[0] < cutoff {
      assert (ts + [t])[1..] == ts[1..] + [t];
      PruneAppended(ts[1..], cutoff, t);
    }
  }

  // A failure adds one to what is recent, and time only takes from it.
  lemma RecentAfterFailure(c: Config, failures: seq<int>, clock: int, now: int)
    requires clock <= now
    ensures var before := FrontPrune(failures, clock - c.windowMs);
            var after := FrontPrune(failures + [now], now - c.windowMs);
            && |after| <= |before| + 1 && FrontPrune(after, now - c.windowMs) == after
            && (clock == now ==> |after| == |before| + 1)
  {
    PruneAppended(failures, now - c.windowMs, now);
    PruneTwice(failures, clock - c.windowMs, now - c.windowMs);
    PruneTwice(failures + [now], now - c.windowMs, now - c.windowMs);
  }

  // ----- a stuck breaker stays stuck -----

  lemma StuckStep(c: Config, w: World, a: Action, now: int)
    requires Inv(c, w) && Stuck(c, w) && Enabled(w, a, now) && !Manual(a)
    ensures Stuck(c, Next(c, w, a, now))
  {
    RecentAfterFailure(c, w.b.failures, w.clock, now);
    PruneTwice(w.b.failures, w.clock - c.windowMs, now - c.windowMs);
    PruneTwice(w.b.failures, now - c.windowMs, now - c.windowMs);
  }

  lemma {:induction false} StuckStays(c: Config, w: World, acts: seq<Timed>)
    requires Inv(c, w) && Stuck(c, w) && Legal(c, w, acts) && NoManual(acts)
    ensures Stuck(c, Run(c, w, acts))
    decreases |acts|
  {
    if acts != [] {
      var a, now := acts[0].action, acts[0].at;
      assert acts[0] in acts && forall t | t in acts[1..] :: t in acts;
      StuckStep(c, w, a, now);
      StepKeepsInv(c, w, a, now);
      StuckStays(c, Next(c, w, a, now), acts[1..]);
    }
  }

  // ----- any other breaker recovers -----

  lemma RecoversWith(c: Config, w: World, acts: seq<Timed>, now: int)
    requires NoManual(acts) && Legal(c, w, acts) && Admits(c, Run(c, w, acts), now)
    ensures CanRecover(c, w)
  {
  }

  lemma RecoversLater(c: Config, w: World, a: Action, now: int)
    requires Enabled(w, a, now) && !Manual(a) && CanRecover(c, Next(c, w, a, now))
    ensures CanRecover(c, w)
  {
    var w' := Next(c, w, a, now);
    var acts: seq<Timed>, at: int :| NoManual(acts) && Legal(c, w', acts) && Admits(c, Run(c, w', acts), at);
    var all := [Timed(a, now)] + acts;
    assert all[0] == Timed(a, now) && all[1..] == acts;
    RecoversWith(c, w, all, at);
  }

  lemma OpenRecovers(c: Config, w: World)
    requires Inv(c, w) && w.b.state == Open
    ensures CanRecover(c, w)
  {
    var due := w.b.openedAt.value + c.timeout;
    RecoversWith(c, w, [], if due < w.clock then w.clock else due);
  }

  // Failing calls from before, one after the other, open the breaker when there are enough of them.
  lemma {:induction false} FailuresRecover(c: Config, w: World)
    requires Inv(c, w) && w.b.state == HalfOpen && w.normals > 0 && |Recent(c, w)| + w.normals >= c.failureThreshold
    ensures CanRecover(c, w)
    decreases w.normals
  {
    var a, now := NormalEnds(false), w.clock;
    var w' := Next(c, w, a, now);
    StepKeepsInv(c, w, a, now);
    RecentAfterFailure(c, w.b.failures, now, now);
    if w'.b.state == Open {
      OpenRecovers(c, w');
    } else {
      FailuresRecover(c, w');
    }
    RecoversLater(c, w, a, now);
  }

  lemma UnstuckRecovers(c: Config, w: World)
    requires Inv(c, w) && !Stuck(c, w)
    ensures CanRecover(c, w)
  {
    if w.b.state == Open {
      OpenRecovers(c, w);
    } else if w.b.state == Closed || w.b.inflight < c.halfOpenMax {
      RecoversWith(c, w, [], w.clock);
    } else if w.probes > 0 {
      var w' := Next(c, w, ProbeEnds(true), w.clock);
      RecoversWith(c, w', [], w.clock);
      RecoversLater(c, w, ProbeEnds(true), w.clock);
    } else {
      FailuresRecover(c, w);
    }
  }

  // At any moment of any run, the breaker will never again admit a call without a trip or a reset exactly when it is
  // stuck.
  lemma StuckExactly(c: Config, start: World, before: seq<Timed>)
    requires c.Valid() && Initial(start) && Legal(c, start, before)
    ensures var w := Run(c, start, before); Stuck(c, w) <==> !CanRecover(c, w)
  {
    var w := Run(c, start, before);
    InitialInv(c, start);
    InvAfter(c, start, before);
    if !Stuck(c, w) {
      UnstuckRecovers(c, w);
    } else if CanRecover(c, w) {
      var acts: seq<Timed>, now: int :| NoManual(acts) && Legal(c, w, acts) && Admits(c, Run(c, w, acts), now);
      StuckStays(c, w, acts);
    }
  }

  // ----- getting stuck -----

  ghost function Throws(n: nat, t: int): seq<Timed> {
    seq(n, _ => Timed(StartThrows, t))
  }

  lemma {:induction false} ThrowsFillTheGate(c: Config, w: World, t: int, n: nat)
    requires w.b.state == HalfOpen && w.b.inflight + n == c.halfOpenMax && w.probes == 0 && w.normals == 0
    requires w.clock <= t
    ensures Legal(c, w, Throws(n, t)) && Stuck(c, Run(c, w, Throws(n, t)))
    decreases n
  {
    if n == 0 {
      assert Throws(n, t) == [];
    } else {
      assert Throws(n, t)[0] == Timed(StartThrows, t) && Throws(n, t)[1..] == Throws(n - 1, t);
      ThrowsFillTheGate(c, Next(c, w, StartThrows, t), t, n - 1);
    }
  }

  // Once the timeout of a fresh, tripped breaker is over, as many calls as probes are allowed, whose callees throw at
  // once, leave it stuck. The default maximum is one.
  lemma ThrowingCalleesGetItStuck(c: Config, w: World)
    requires c.Valid() && Initial(w) && w.clock == 0
    ensures var acts := [Timed(Trip, 0), Timed(Look, c.timeout)] + Throws(c.halfOpenMax, c.timeout);
            Legal(c, w, acts) && Stuck(c, Run(c, w, acts))
  {
    var t := c.timeout;
    var throws := Throws(c.halfOpenMax, t);
    var acts := [Timed(Trip, 0), Timed(Look, t)] + throws;
    assert acts[1..] == [Timed(Look, t)] + throws && acts[1..][1..] == throws;
    TripOpens(c, w, 0);
    var w1 := Next(c, w, Trip, 0);
    LookRecovers(c, w1, t);
    ThrowsFillTheGate(c, Next(c, w1, Look, t), t, c.halfOpenMax);
    RunOne(c, w, acts);
    RunOne(c, w1, acts[1..]);
  }

  lemma LookRecovers(c: Config, w: World, now: int)
    requires Enabled(w, Look, now) && w.b.state == Open && w.b.openedAt.Some? && now - w.b.openedAt.value >= c.timeout
    ensures var w' := Next(c, w, Look, now);
            && w'.b.state == HalfOpen && w'.b.inflight == 0 && w'.clock == now
            && w'.probes == w.probes && w'.normals == w.normals
  {
  }
}
