/** What holds of a breaker in every run, whatever order calls start and complete in. */
module BreakerSafety {
  import opened Wrappers
  import opened BreakerSpec
  import opened BreakerRuns

  lemma {:induction false} FrontPruneShrinks(ts: seq<int>, cutoff: int)
    ensures |FrontPrune(ts, cutoff)| <= |ts|
  {
    if ts != [] && ts[0] < cutoff {
      FrontPruneShrinks(ts[1..], cutoff);
    }
  }

  lemma StateStep(c: Config, b: Breaker, a: Action, now: int)
    requires c.Valid() && StateInv(c, b)
    ensures StateInv(c, After(c, b, a, now))
  {
    FrontPruneShrinks(b.failures, now - c.windowMs);
  }

  lemma GateStep(c: Config, w: World, a: Action, now: int)
    requires Inv(c, w) && Enabled(w, a, now)
    ensures GateInv(c, Next(c, w, a, now))
  {
  }

  lemma TimeStep(c: Config, w: World, a: Action, now: int)
    requires Inv(c, w) && Enabled(w, a, now)
    ensures TimeInv(c, Next(c, w, a, now))
  {
  }

  lemma FailuresAfter(c: Config, b: Breaker, a: Action, now: int)
    ensures After(c, b, a, now).failures ==
              if Clears(c, b, a, now) then []
              else if Fails(a) then FrontPrune(b.failures + [now], now - c.windowMs)
              else if a.LookStats? then FrontPrune(b.failures, now - c.windowMs)
              else b.failures
  {
  }

  lemma WindowStep(c: Config, w: World, a: Action, now: int)
    requires Inv(c, w) && Enabled(w, a, now)
    ensures WindowInv(c, Next(c, w, a, now))
  {
    FailuresAfter(c, w.b, a, now);
    if Clears(c, w.b, a, now) {
    } else if Fails(a) {
      FailureAdds(w.failed, w.cutoff, now, c.windowMs, w.clock);
    } else if a.LookStats? {
      PruneIsWindow(w.failed, w.cutoff, now - c.windowMs);
    }
  }

  lemma FailureAdds(failed: seq<int>, cutoff: Option<int>, now: int, windowMs: nat, clock: int)
    requires Sorted(failed) && (forall t | t in failed :: t <= clock) && clock <= now
    requires cutoff.Some? ==> cutoff.value <= clock - windowMs
    ensures Sorted(failed + [now]) && forall t | t in failed + [now] :: t <= now
    ensures FrontPrune(Since(failed, cutoff) + [now], now - windowMs) == Since(failed + [now], Some(now - windowMs))
  {
    assert forall i | 0 <= i < |failed| :: failed[i] in failed;
    SinceAppend(failed, cutoff, now);
    PruneIsWindow(failed + [now], cutoff, now - windowMs);
  }

  lemma StepKeepsInv(c: Config, w: World, a: Action, now: int)
    requires Inv(c, w) && Enabled(w, a, now)
    ensures Inv(c, Next(c, w, a, now))
  {
    StateStep(c, w.b, a, now);
    GateStep(c, w, a, now);
    TimeStep(c, w, a, now);
    WindowStep(c, w, a, now);
  }

  lemma {:induction false} InvAfter(c: Config, w: World, acts: seq<Timed>)
    requires Inv(c, w) && Legal(c, w, acts)
    ensures Inv(c, Run(c, w, acts))
    decreases |acts|
  {
    if acts != [] {
      StepKeepsInv(c, w, acts[0].action, acts[0].at);
      InvAfter(c, Next(c, w, acts[0].action, acts[0].at), acts[1..]);
    }
  }

  // ----- the theorems -----

  lemma InitialInv(c: Config, w: World)
    requires c.Valid() && Initial(w)
    ensures Inv(c, w)
  {
  }

  // In every run: CLOSED exactly when there is no opening time; a CLOSED breaker stores fewer failures than
  // open it; in every state fewer successes are counted than close it; the log is a chain ending here.
  lemma StateInvariants(c: Config, w: World, acts: seq<Timed>)
    requires c.Valid() && Initial(w) && Legal(c, w, acts)
    ensures var b := Run(c, w, acts).b;
            && (b.state == Closed <==> b.openedAt == None)
            && (b.state == Closed ==> |b.failures| < c.failureThreshold)
            && b.successes < c.successThreshold
            && Chain(b.log, b.state)
  {
    InitialInv(c, w);
    InvAfter(c, w, acts);
  }

  // The gate counts the probes under way and the leaked ones, less those that were under way when it was last set to
  // zero. So at most the maximum and those leftovers run at once; without leftovers and leaks the gate is exact.
  lemma ProbeGate(c: Config, w: World, acts: seq<Timed>)
    requires c.Valid() && Initial(w) && Legal(c, w, acts)
    ensures var w' := Run(c, w, acts);
            && w'.b.inflight == w'.probes + w'.leaked - w'.leftover
            && w'.b.inflight <= c.halfOpenMax && w'.probes <= c.halfOpenMax + w'.leftover
            && (w'.clean ==> w'.b.inflight == w'.probes + w'.leaked && (w'.b.state != HalfOpen ==> w'.probes == 0))
  {
    InitialInv(c, w);
    InvAfter(c, w, acts);
  }

  // Whether a call would be admitted as a probe.
  ghost predicate OpensGate(c: Config, b: Breaker, now: int) {
    || (b.state == HalfOpen && b.inflight < c.halfOpenMax)
    || (b.state == Open && b.openedAt.Some? && now - b.openedAt.value >= c.timeout)
  }

  // One more probe than the maximum: a call comes when the maximum is under way and the gate, lowered by a zeroing
  // those probes outlived, lets it through.
  ghost predicate OneTooMany(c: Config, w: World, a: Action, now: int) {
    a.StartCall? && w.probes == c.halfOpenMax && OpensGate(c, w.b, now)
  }

  // A step within the limit stays within it exactly when it is not that call.
  lemma LimitExactly(c: Config, w: World, a: Action, now: int)
    requires c.Valid() && Enabled(w, a, now) && w.probes <= c.halfOpenMax
    ensures Next(c, w, a, now).probes <= c.halfOpenMax <==> !OneTooMany(c, w, a, now)
  {
  }

  ghost predicate NeverTooMany(c: Config, w: World, acts: seq<Timed>)
    requires Legal(c, w, acts)
    decreases |acts|
  {
    acts == [] ||
    (!OneTooMany(c, w, acts[0].action, acts[0].at) &&
     NeverTooMany(c, Next(c, w, acts[0].action, acts[0].at), acts[1..]))
  }

  // The most probes under way at any moment of a run.
  ghost function MostProbes(c: Config, w: World, acts: seq<Timed>): nat
    requires Legal(c, w, acts)
    decreases |acts|
  {
    if acts == [] then w.probes
    else
      var later := MostProbes(c, Next(c, w, acts[0].action, acts[0].at), acts[1..]);
      if later < w.probes then w.probes else later
  }

  // A run stays within the limit all along exactly when no step of it is such a call.
  lemma {:induction false} LimitOverRuns(c: Config, w: World, acts: seq<Timed>)
    requires c.Valid() && Legal(c, w, acts) && w.probes <= c.halfOpenMax
    ensures MostProbes(c, w, acts) <= c.halfOpenMax <==> NeverTooMany(c, w, acts)
    decreases |acts|
  {
    if acts != [] {
      var w' := Next(c, w, acts[0].action, acts[0].at);
      LimitExactly(c, w, acts[0].action, acts[0].at);
      if w'.probes <= c.halfOpenMax {
        LimitOverRuns(c, w', acts[1..]);
      } else {
        MostIsAtLeast(c, w', acts[1..]);
      }
    }
  }

  lemma MostIsAtLeast(c: Config, w: World, acts: seq<Timed>)
    requires Legal(c, w, acts)
    ensures MostProbes(c, w, acts) >= w.probes
  {
  }

  // Sooner than the timeout after the breaker last opened, a call is admitted exactly when since then the breaker was
  // reset, or closed by a probe that came back late. The latter needs a probe that outlived its episode.
  lemma NoEarlyCall(c: Config, w: World, acts: seq<Timed>, now: int)
    requires c.Valid() && Initial(w) && Legal(c, w, acts)
    requires Run(c, w, acts).clock <= now
    ensures var w' := Run(c, w, acts);
            && (w'.tripped.Some? && now < w'.tripped.value + c.timeout ==>
                  (!Start(c, w'.b, now).1.Rejected? <==> w'.wasReset || w'.lateClose))
            && (w'.clean ==> !w'.lateClose)
  {
    InitialInv(c, w);
    InvAfter(c, w, acts);
  }

  // What the statistics report are exactly the failures since the last clear that lie in the window.
  lemma ReportedFailures(c: Config, w: World, acts: seq<Timed>, now: int)
    requires c.Valid() && Initial(w) && Legal(c, w, acts) && Enabled(Run(c, w, acts), LookStats, now)
    ensures Stats(c, Run(c, w, acts).b, now).failures == Since(Run(c, w, acts).failed, Some(now - c.windowMs))
  {
    InitialInv(c, w);
    InvAfter(c, w, acts);
    var w' := Run(c, w, acts);
    PruneIsWindow(w'.failed, w'.cutoff, now - c.windowMs);
  }

  // ----- lifetime counters -----

  // The calls of a run that were let through.
  ghost function Admitted(c: Config, w: World, acts: seq<Timed>): nat
    requires Legal(c, w, acts)
    decreases |acts|
  {
    if acts == [] then 0
    else
      (if Starts(acts[0].action) && !Start(c, w.b, acts[0].at).1.Rejected? then 1 else 0) +
      Admitted(c, Next(c, w, acts[0].action, acts[0].at), acts[1..])
  }

  ghost predicate Succeeds(a: Action) {
    (a.NormalEnds? || a.ProbeEnds?) && a.ok
  }

  // When the actions of some kind happened, oldest first.
  ghost function Times(acts: seq<Timed>, kind: Action -> bool): seq<int> {
    if acts == [] then []
    else (if kind(acts[0].action) then [acts[0].at] else []) + Times(acts[1..], kind)
  }

  ghost function Openings(log: seq<Change>): nat {
    if log == [] then 0
    else Openings(log[..|log| - 1]) + if log[|log| - 1].to == Open then 1 else 0
  }

  ghost function LastOf(times: seq<int>, before: Option<int>): Option<int> {
    if times == [] then before else Some(times[|times| - 1])
  }

  lemma CountersStep(c: Config, b: Breaker, a: Action, now: int)
    ensures var b' := After(c, b, a, now);
            && b'.totalCalls == b.totalCalls + (if Starts(a) && !Start(c, b, now).1.Rejected? then 1 else 0)
            && b'.totalFailures == b.totalFailures + (if Fails(a) then 1 else 0)
            && b'.lastFailure == (if Fails(a) then Some(now) else b.lastFailure)
            && b'.lastSuccess == (if Succeeds(a) then Some(now) else b.lastSuccess)
  {
  }

  lemma OpeningsStep(c: Config, b: Breaker, a: Action, now: int)
    requires b.openCount == Openings(b.log)
    ensures After(c, b, a, now).openCount == Openings(After(c, b, a, now).log)
  {
    assert forall x: Change {:trigger b.log + [x]} :: (b.log + [x])[..|b.log|] == b.log;
  }

  // Over every run the counters are the calls let through, the failures reported and the openings in the log, and the
  // last-event times are those of the last failure and the last success.
  lemma {:induction false} CountersFollow(c: Config, w: World, acts: seq<Timed>)
    requires Legal(c, w, acts) && w.b.openCount == Openings(w.b.log)
    ensures var b, b' := w.b, Run(c, w, acts).b;
            var failures, successes := Times(acts, Fails), Times(acts, Succeeds);
            && b'.totalCalls == b.totalCalls + Admitted(c, w, acts)
            && b'.totalFailures == b.totalFailures + |failures|
            && b'.lastFailure == LastOf(failures, b.lastFailure)
            && b'.lastSuccess == LastOf(successes, b.lastSuccess)
            && b'.openCount == Openings(b'.log)
    decreases |acts|
  {
    if acts != [] {
      var a, now := acts[0].action, acts[0].at;
      CountersStep(c, w.b, a, now);
      OpeningsStep(c, w.b, a, now);
      CountersFollow(c, Next(c, w, a, now), acts[1..]);
    }
  }

  // A rejection by an open breaker says exactly how long it stays open: one millisecond earlier a call would still be
  // rejected, and then it would be admitted as a probe. A rejection by a full half-open breaker says nothing.
  lemma RejectionTellsWhen(c: Config, b: Breaker, now: int)
    requires c.Valid() && StateInv(c, b) && Start(c, b, now).1.Rejected?
    ensures var ms := Start(c, b, now).1.retryAfterMs;
            var b' := Start(c, b, now).0;
            if b'.state == Open then
              ms > 0 && Start(c, b', now + ms).1 == Probe && Start(c, b', now + ms - 1).1 == Rejected(1)
            else ms == 0 && b'.state == HalfOpen && b'.inflight == c.halfOpenMax
  {
  }

  // How an open breaker stops being open: to half open exactly by a look after the timeout, to closed exactly
  // by a reset or by a late success that reaches the success threshold.
  lemma LeavingOpen(c: Config, w: World, a: Action, now: int)
    requires Inv(c, w) && Enabled(w, a, now) && w.b.state == Open
    ensures var s := After(c, w.b, a, now).state;
            (s == HalfOpen <==> (Starts(a) || a.Look? || a.LookStats?) && now - w.b.openedAt.value >= c.timeout) &&
            (s == Closed <==> a.Reset? || (a == ProbeEnds(true) && w.b.successes + 1 >= c.successThreshold))
  {
  }

  // Trips a fresh breaker and starts its first probe as soon as the timeout is over.
  ghost function FirstProbe(c: Config, w: World): World
    requires c.Valid() && Initial(w) && w.clock == 0
  {
    Next(c, Next(c, w, Trip, 0), StartCall, c.timeout)
  }

  lemma FirstProbeState(c: Config, w: World)
    requires c.Valid() && Initial(w) && w.clock == 0
    ensures var w2 := FirstProbe(c, w);
            w2.b.state == HalfOpen && w2.b.inflight == 1 && w2.probes == 1
            && w2.clock == c.timeout && w2.b.successes == 0
  {
    TripOpens(c, w, 0);
    RecoveredProbe(c, Next(c, w, Trip, 0), c.timeout);
  }

  lemma RecoveredProbe(c: Config, w: World, now: int)
    requires c.Valid() && Enabled(w, StartCall, now) && w.b.state == Open && w.b.openedAt.Some?
    requires now - w.b.openedAt.value >= c.timeout
    ensures var w' := Next(c, w, StartCall, now);
            w'.b.state == HalfOpen && w'.b.inflight == 1 && w'.probes == w.probes + 1
            && w'.clock == now && w'.b.successes == 0
  {
  }

  lemma SecondProbe(c: Config, w: World, now: int)
    requires Enabled(w, StartCall, now) && w.b.state == HalfOpen && w.b.inflight < c.halfOpenMax
    ensures var w' := Next(c, w, StartCall, now);
            w'.b.state == HalfOpen && w'.probes == w.probes + 1 && w'.clock == now
  {
  }

  ghost function LateProbe(t: nat): (acts: seq<Timed>)
    ensures |acts| == 5
  {
    [Timed(Trip, 0), Timed(StartCall, t), Timed(StartCall, t),
     Timed(ProbeEnds(false), t + 1), Timed(ProbeEnds(true), t + 2)]
  }

  ghost function TripDuringProbe(t: nat): (acts: seq<Timed>)
    ensures |acts| == 5
  {
    [Timed(Trip, 0), Timed(StartCall, t), Timed(Trip, t), Timed(Look, t), Timed(StartCall, t + t)]
  }

  // Where one success closes the breaker and two probes may run: after one of them failed, the other one
  // closes the open breaker, and a call starts 1 ms after it opened, however long the timeout is.
  lemma LateProbeClosesOpenBreaker(c: Config, w: World)
    requires c.Valid() && c.successThreshold == 1 && c.halfOpenMax >= 2 && Initial(w) && w.clock == 0
    ensures Legal(c, w, LateProbe(c.timeout))
    ensures var w' := Run(c, w, LateProbe(c.timeout));
            w'.tripped == Some(c.timeout + 1) && w'.lateClose && w'.b.state == Closed &&
            Start(c, w'.b, c.timeout + 2).1 == Normal
  {
    hide Initial, Legal, Run;
    var t := c.timeout;
    FirstProbeState(c, w);
    var w1, w2 := Next(c, w, Trip, 0), FirstProbe(c, w);
    var w3, w4, w5 := ProbesDisagree(c, w2, t);
    RunFive(c, w, LateProbe(t), w1, w2, w3, w4, w5);
  }

  // A second probe starts, one fails, the other one succeeds.
  lemma ProbesDisagree(c: Config, w2: World, t: int) returns (w3: World, w4: World, w5: World)
    requires c.Valid() && c.successThreshold == 1 && c.halfOpenMax >= 2
    requires w2.b.state == HalfOpen && w2.b.inflight == 1 && w2.probes == 1 && w2.clock == t
    ensures Enabled(w2, StartCall, t) && w3 == Next(c, w2, StartCall, t)
    ensures Enabled(w3, ProbeEnds(false), t + 1) && w4 == Next(c, w3, ProbeEnds(false), t + 1)
    ensures Enabled(w4, ProbeEnds(true), t + 2) && w5 == Next(c, w4, ProbeEnds(true), t + 2)
    ensures w5.tripped == Some(t + 1) && w5.lateClose && w5.b.state == Closed && Start(c, w5.b, t + 2).1 == Normal
  {
    SecondProbe(c, w2, t);
    w3 := Next(c, w2, StartCall, t);
    FailedProbeOpens(c, w3, t + 1);
    w4 := Next(c, w3, ProbeEnds(false), t + 1);
    LateSuccessCloses(c, w4, t + 2);
    w5 := Next(c, w4, ProbeEnds(true), t + 2);
  }

  lemma LateSuccessCloses(c: Config, w: World, now: int)
    requires Enabled(w, ProbeEnds(true), now) && w.b.state == Open && w.b.successes + 1 >= c.successThreshold
    ensures var w' := Next(c, w, ProbeEnds(true), now);
            w'.b.state == Closed && w'.lateClose && w'.tripped == w.tripped && Start(c, w'.b, now).1 == Normal
  {
  }

  lemma FailedProbeOpens(c: Config, w: World, now: int)
    requires Enabled(w, ProbeEnds(false), now)
    ensures var w' := Next(c, w, ProbeEnds(false), now);
            w'.b.state == Open && w'.b.openedAt == Some(now) && w'.tripped == Some(now) && w'.probes == w.probes - 1 &&
            w'.b.successes == 0 && w'.clock == now
  {
  }

  // With a maximum of one probe, two run at once after a trip while the first one is still under way.
  lemma LeftoverExceedsMaximum(c: Config, w: World)
    requires c.Valid() && c.halfOpenMax == 1 && Initial(w) && w.clock == 0
    ensures Legal(c, w, TripDuringProbe(c.timeout))
    ensures Run(c, w, TripDuringProbe(c.timeout)).probes == 2 && Run(c, w, TripDuringProbe(c.timeout)).b.inflight == 1
  {
    hide Legal, Run, Next;
    var t := c.timeout;
    FirstProbeState(c, w);
    var w1, w2 := Next(c, w, Trip, 0), FirstProbe(c, w);
    TripOpens(c, w, 0);
    TripOpens(c, w2, t);
    var w3 := Next(c, w2, Trip, t);
    LookKeepsProbes(c, w3, t);
    var w4 := Next(c, w3, Look, t);
    SecondProbeStarts(c, w4, t + t);
    var w5 := Next(c, w4, StartCall, t + t);
    RunFive(c, w, TripDuringProbe(t), w1, w2, w3, w4, w5);
  }

  lemma LookKeepsProbes(c: Config, w: World, now: int)
    requires Enabled(w, Look, now) && w.b.state == Open && w.b.openedAt == Some(now) && w.b.inflight == 0
    ensures var w' := Next(c, w, Look, now);
            w'.b.inflight == 0 && w'.probes == w.probes && w'.clock == now &&
            (w'.b.state == HalfOpen || (w'.b.state == Open && w'.b.openedAt == Some(now)))
  {
  }

  lemma SecondProbeStarts(c: Config, w: World, now: int)
    requires c.Valid() && Enabled(w, StartCall, now) && w.b.inflight == 0
    requires w.b.state == HalfOpen || (w.b.state == Open && w.b.openedAt.Some? && now - w.b.openedAt.value >= c.timeout)
    ensures var w' := Next(c, w, StartCall, now);
            w'.b.state == HalfOpen && w'.b.inflight == 1 && w'.probes == w.probes + 1
  {
  }

  lemma TripOpens(c: Config, w: World, now: int)
    requires Enabled(w, Trip, now)
    ensures var w' := Next(c, w, Trip, now);
            w'.b.state == Open && w'.b.openedAt == Some(now) && w'.probes == w.probes &&
            w'.clock == now && w'.b.inflight == 0
  {
  }

  lemma RunFive(c: Config, w: World, acts: seq<Timed>, w1: World, w2: World, w3: World, w4: World, w5: World)
    requires |acts| == 5
    requires Enabled(w, acts[0].action, acts[0].at) && w1 == Next(c, w, acts[0].action, acts[0].at)
    requires Enabled(w1, acts[1].action, acts[1].at) && w2 == Next(c, w1, acts[1].action, acts[1].at)
    requires Enabled(w2, acts[2].action, acts[2].at) && w3 == Next(c, w2, acts[2].action, acts[2].at)
    requires Enabled(w3, acts[3].action, acts[3].at) && w4 == Next(c, w3, acts[3].action, acts[3].at)
    requires Enabled(w4, acts[4].action, acts[4].at) && w5 == Next(c, w4, acts[4].action, acts[4].at)
    ensures Legal(c, w, acts) && Run(c, w, acts) == w5
  {
    RunOne(c, w4, acts[4..]);
    RunOne(c, w3, acts[3..]);
    RunOne(c, w2, acts[2..]);
    RunOne(c, w1, acts[1..]);
    assert Legal(c, w5, []);
  }

  lemma RunOne(c: Config, w: World, acts: seq<Timed>)
    requires acts != [] && Enabled(w, acts[0].action, acts[0].at)
    ensures var w' := Next(c, w, acts[0].action, acts[0].at);
            Legal(c, w, acts) == Legal(c, w', acts[1..]) &&
            (Legal(c, w, acts) ==> Run(c, w, acts) == Run(c, w', acts[1..]))
  {
  }
}
