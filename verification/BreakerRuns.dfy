/** Everything that can happen to one breaker, in any order: calls start and complete, it is tripped, reset
    and looked at, while the clock never goes back. */
module BreakerRuns {
  import opened Wrappers
  import opened BreakerSpec

  datatype Action =
    | StartCall
    | StartThrows // a call whose callee throws before it returns a promise: no completion follows
    | NormalEnds(ok: bool)
    | ProbeEnds(ok: bool)
    | Trip
    | Reset
    | Look      // reads the state
    | LookStats // reads the statistics

  // The breaker, the calls under way, and what is remembered about the past:
  //   leftover - probes that were under way when the probe gate was last set to zero
  //   leaked   - probes since then whose callee threw at once, so that nothing lowers the gate again
  //   clean    - every time the gate was set to zero no probe was under way
  //   tripped  - when the breaker last opened
  //   reopened - since then it was reset, or closed by a probe that came back while it was open
  //   failed   - the times of all failures since the failures were last cleared
  //   cutoff   - the start of the window at the last pruning since then
  //   won      - the probes that came back successfully since the last state change or reset
  datatype World = World(b: Breaker, normals: nat, probes: nat, clock: int,
                         leftover: nat, leaked: nat, clean: bool, tripped: Option<int>, wasReset: bool, lateClose: bool,
                         failed: seq<int>, cutoff: Option<int>, won: nat)

  ghost predicate Initial(w: World) {
    w.b == FRESH && w.normals == 0 && w.probes == 0 && w.leftover == 0 && w.leaked == 0 && w.clean &&
    w.tripped == None &&
    !w.wasReset && !w.lateClose && w.failed == [] && w.cutoff == None && w.won == 0
  }

  ghost predicate Enabled(w: World, a: Action, now: int) {
    w.clock <= now && (a.NormalEnds? ==> w.normals > 0) && (a.ProbeEnds? ==> w.probes > 0)
  }

  ghost function After(c: Config, b: Breaker, a: Action, now: int): Breaker {
    match a
    case StartCall => Start(c, b, now).0
    case StartThrows => Start(c, b, now).0
    case NormalEnds(ok) => NormalDone(c, b, ok, now)
    case ProbeEnds(ok) => ProbeDone(c, b, ok, now)
    case Trip => ToOpen(b, now)
    case Reset => ResetTo(b, now)
    case Look => Recover(c, b, now)
    case LookStats => Stats(c, b, now)
  }

  // The gate is set to zero by every state change, and by a reset in any case.
  ghost predicate Zeroes(c: Config, b: Breaker, a: Action, now: int) {
    a.Reset? || |After(c, b, a, now).log| > |b.log|
  }

  ghost predicate Opens(c: Config, b: Breaker, a: Action, now: int) {
    |After(c, b, a, now).log| > |b.log| && After(c, b, a, now).state == Open
  }

  // Failures are cleared on closing; a pruning happens with every failure and every look at the statistics.
  ghost predicate Clears(c: Config, b: Breaker, a: Action, now: int) {
    Zeroes(c, b, a, now) && After(c, b, a, now).state == Closed
  }

  ghost predicate Starts(a: Action) {
    a.StartCall? || a.StartThrows?
  }

  ghost predicate Fails(a: Action) {
    (a.NormalEnds? || a.ProbeEnds?) && !a.ok
  }

  ghost function Next(c: Config, w: World, a: Action, now: int): World
    requires Enabled(w, a, now)
  {
    var b' := After(c, w.b, a, now);
    var admitted := if Starts(a) then Start(c, w.b, now).1 else Rejected(0);
    var finished := if a.ProbeEnds? then w.probes - 1 else w.probes;
    var zeroes, opens := Zeroes(c, w.b, a, now), Opens(c, w.b, a, now);
    World(b',
          w.normals + (if a.StartCall? && admitted.Normal? then 1 else 0) - (if a.NormalEnds? then 1 else 0),
          finished + (if a.StartCall? && admitted.Probe? then 1 else 0),
          now,
          if zeroes then finished else w.leftover,
          (if zeroes then 0 else w.leaked) + (if a.StartThrows? && admitted.Probe? then 1 else 0),
          w.clean && (zeroes ==> finished == 0),
          if opens then Some(now) else w.tripped,
          if opens then false else w.wasReset || a.Reset?,
          if opens then false else w.lateClose || (a.ProbeEnds? && w.b.state == Open && b'.state == Closed),
          if Clears(c, w.b, a, now) then [] else if Fails(a) then w.failed + [now] else w.failed,
          if Clears(c, w.b, a, now) then None
          else if Fails(a) || a.LookStats? then Some(now - c.windowMs) else w.cutoff,
          if zeroes then 0 else if a.ProbeEnds? && a.ok then w.won + 1 else w.won)
  }

  datatype Timed = Timed(action: Action, at: int)

  ghost predicate Legal(c: Config, w: World, acts: seq<Timed>)
    decreases |acts|
  {
    acts == [] ||
    (Enabled(w, acts[0].action, acts[0].at) && Legal(c, Next(c, w, acts[0].action, acts[0].at), acts[1..]))
  }

  ghost function Run(c: Config, w: World, acts: seq<Timed>): World
    requires Legal(c, w, acts)
    decreases |acts|
  {
    if acts == [] then w else Run(c, Next(c, w, acts[0].action, acts[0].at), acts[1..])
  }

  // ----- the sliding window -----

  ghost predicate Sorted(ts: seq<int>) {
    forall i, j | 0 <= i < j < |ts| :: ts[i] <= ts[j]
  }

  // The timestamps at or after the cutoff.
  ghost function Since(ts: seq<int>, cutoff: Option<int>): seq<int> {
    if ts == [] then []
    else if cutoff.Some? && ts[0] < cutoff.value then Since(ts[1..], cutoff)
    else [ts[0]] + Since(ts[1..], cutoff)
  }

  lemma {:induction false} SinceSorted(ts: seq<int>, cutoff: Option<int>)
    requires Sorted(ts)
    ensures Sorted(Since(ts, cutoff)) && forall t | t in Since(ts, cutoff) :: t in ts
  {
    if ts != [] {
      SinceSorted(ts[1..], cutoff);
      var rest := Since(ts[1..], cutoff);
      forall i | 0 <= i < |rest|
        ensures ts[0] <= rest[i]
      {
        assert rest[i] in rest && rest[i] in ts[1..];
        var j :| 0 <= j < |ts[1..]| && ts[1..][j] == rest[i];
        assert ts[j + 1] == rest[i];
      }
    }
  }

  // On sorted timestamps, dropping from the front drops exactly the old ones.
  lemma {:induction false} FrontPruneIsSince(ts: seq<int>, cutoff: int)
    requires Sorted(ts)
    ensures FrontPrune(ts, cutoff) == Since(ts, Some(cutoff))
  {
    if ts != [] && ts[0] < cutoff {
      FrontPruneIsSince(ts[1..], cutoff);
    } else {
      AllRecent(ts, cutoff);
    }
  }

  lemma {:induction false} AllRecent(ts: seq<int>, cutoff: int)
    requires forall i | 0 <= i < |ts| :: ts[i] >= cutoff
    ensures Since(ts, Some(cutoff)) == ts
  {
    if ts != [] {
      AllRecent(ts[1..], cutoff);
    }
  }

  lemma {:induction false} SinceTwice(ts: seq<int>, early: Option<int>, cutoff: int)
    requires early.Some? ==> early.value <= cutoff
    ensures Since(Since(ts, early), Some(cutoff)) == Since(ts, Some(cutoff))
  {
    if ts != [] {
      SinceTwice(ts[1..], early, cutoff);
      if !(early.Some? && ts[0] < early.value) {
        assert ([ts[0]] + Since(ts[1..], early))[1..] == Since(ts[1..], early);
      }
    }
  }

  lemma {:induction false} SinceAppend(ts: seq<int>, cutoff: Option<int>, t: int)
    requires cutoff.Some? ==> cutoff.value <= t
    ensures Since(ts + [t], cutoff) == Since(ts, cutoff) + [t]
  {
    if ts == [] {
      assert ([] + [t])[1..] == [];
    } else {
      SinceAppend(ts[1..], cutoff, t);
      assert (ts + [t])[1..] == ts[1..] + [t];
    }
  }

  // Pruning what is stored leaves exactly what lies in the window.
  lemma PruneIsWindow(failed: seq<int>, early: Option<int>, cutoff: int)
    requires Sorted(failed) && (early.Some? ==> early.value <= cutoff)
    ensures FrontPrune(Since(failed, early), cutoff) == Since(failed, Some(cutoff))
  {
    SinceSorted(failed, early);
    FrontPruneIsSince(Since(failed, early), cutoff);
    SinceTwice(failed, early, cutoff);
  }

  // ----- the invariant -----

  // Each change starts where the one before ended, the first one from CLOSED, the last one ends here.
  ghost predicate Chain(log: seq<Change>, state: State) {
    && (log == [] ==> state == Closed)
    && (log != [] ==> log[0].from == Closed && log[|log| - 1].to == state)
    && (forall i | 0 <= i < |log| - 1 :: log[i].to == log[i + 1].from)
  }

  ghost predicate StateInv(c: Config, b: Breaker) {
    && (b.state == Closed <==> b.openedAt == None)
    && (b.state == Closed ==> |b.failures| < c.failureThreshold)
    && b.successes < c.successThreshold
    && b.inflight <= c.halfOpenMax
    && Chain(b.log, b.state)
  }

  ghost predicate GateInv(c: Config, w: World) {
    && w.b.inflight == w.probes + w.leaked - w.leftover
    && w.b.successes == w.won
    && (w.b.state != HalfOpen ==> w.leaked == 0)
    && (w.clean ==> w.leftover == 0 && (w.b.state != HalfOpen ==> w.probes == 0))
  }

  ghost predicate WindowInv(c: Config, w: World) {
    && Sorted(w.failed) && (forall t | t in w.failed :: t <= w.clock)
    && (w.cutoff.Some? ==> w.cutoff.value <= w.clock - c.windowMs)
    && w.b.failures == Since(w.failed, w.cutoff)
  }

  ghost predicate TimeInv(c: Config, w: World) {
    && (w.b.openedAt.Some? ==> w.tripped == w.b.openedAt && !w.wasReset && !w.lateClose)
    && (w.clean ==> !w.lateClose)
    && (w.wasReset || w.lateClose ==> w.b.state == Closed)
    && (w.tripped.Some? && !w.wasReset && !w.lateClose ==>
          w.tripped.value <= w.clock && (w.b.state == Open || w.clock >= w.tripped.value + c.timeout))
  }

  ghost predicate Inv(c: Config, w: World) {
    c.Valid() && StateInv(c, w.b) && GateInv(c, w) && WindowInv(c, w) && TimeInv(c, w)
  }
}
