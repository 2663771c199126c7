/** When a breaker changes its state: over every run the log holds exactly the changes that are due, in order. */
module BreakerChanges {
  import opened Wrappers
  import opened BreakerSpec
  import opened BreakerRuns
  import opened BreakerSafety

  // With a failure now, as many failures since the last clear lie in the window as open the breaker.
  ghost predicate Crowded(c: Config, w: World, now: int) {
    |Since(w.failed + [now], Some(now - c.windowMs))| >= c.failureThreshold
  }

  // The state a step changes to, if it changes to one. A breaker opens by a trip, by a probe that fails, however late
  // it comes back, or by a failed call that finds enough failures in the window. It closes by a reset, or by the last
  // of as many successful probes as the threshold asks for. It becomes half open when it is used or looked at after
  // its timeout.
  ghost function Due(c: Config, w: World, a: Action, now: int): Option<State> {
    if a.Trip? || a == ProbeEnds(false) || (a == NormalEnds(false) && Crowded(c, w, now)) then Some(Open)
    else if (a.Reset? && w.b.state != Closed) || (a == ProbeEnds(true) && w.won + 1 == c.successThreshold) then
      Some(Closed)
    else if (Starts(a) || a.Look? || a.LookStats?) && w.b.state == Open && w.tripped.Some? &&
            now >= w.tripped.value + c.timeout then
      Some(HalfOpen)
    else None
  }

  ghost function DueChange(c: Config, w: World, a: Action, now: int): seq<Change> {
    match Due(c, w, a, now)
    case None => []
    case Some(to) => [Change(w.b.state, to, now)]
  }

  // A failed call opens the breaker exactly when the window is crowded: what is stored after it is what lies there.
  lemma StoredIsWindow(c: Config, w: World, now: int)
    requires Inv(c, w) && w.clock <= now
    ensures FrontPrune(w.b.failures + [now], now - c.windowMs) == Since(w.failed + [now], Some(now - c.windowMs))
  {
    FailureAdds(w.failed, w.cutoff, now, c.windowMs, w.clock);
  }

  // A step changes the state exactly when, and to what, is due; otherwise only a reset leaves it closed as it is.
  lemma ChangeExactly(c: Config, w: World, a: Action, now: int)
    requires Inv(c, w) && Enabled(w, a, now)
    ensures var b' := After(c, w.b, a, now);
            && b'.log == w.b.log + DueChange(c, w, a, now)
            && b'.state == Due(c, w, a, now).UnwrapOr(w.b.state)
  {
    StoredIsWindow(c, w, now);
  }

  // Every change due in a run, in order.
  ghost function AllDue(c: Config, w: World, acts: seq<Timed>): seq<Change>
    requires Legal(c, w, acts)
    decreases |acts|
  {
    if acts == [] then []
    else
      var a, now := acts[0].action, acts[0].at;
      DueChange(c, w, a, now) + AllDue(c, Next(c, w, a, now), acts[1..])
  }

  lemma NextLog(c: Config, w: World, a: Action, now: int)
    requires Inv(c, w) && Enabled(w, a, now)
    ensures Next(c, w, a, now).b.log == w.b.log + DueChange(c, w, a, now)
  {
    ChangeExactly(c, w, a, now);
  }

  lemma {:induction false} ChangesFrom(c: Config, w: World, acts: seq<Timed>)
    requires Inv(c, w) && Legal(c, w, acts)
    ensures Run(c, w, acts).b.log == w.b.log + AllDue(c, w, acts)
    decreases |acts|
  {
    hide Inv, Next, DueChange;
    if acts != [] {
      var a, now := acts[0].action, acts[0].at;
      var w1 := Next(c, w, a, now);
      NextLog(c, w, a, now);
      StepKeepsInv(c, w, a, now);
      ChangesFrom(c, w1, acts[1..]);
      assert w.b.log + DueChange(c, w, a, now) + AllDue(c, w1, acts[1..]) == w.b.log + AllDue(c, w, acts);
    }
  }

  // Over every run from a fresh breaker, its state changes are exactly those due, at their times and in their order:
  // none comes early, none is missed.
  lemma ChangesExactly(c: Config, w: World, acts: seq<Timed>)
    requires c.Valid() && Initial(w) && Legal(c, w, acts)
    ensures Run(c, w, acts).b.log == AllDue(c, w, acts)
  {
    InitialInv(c, w);
    ChangesFrom(c, w, acts);
    assert [] + AllDue(c, w, acts) == AllDue(c, w, acts);
  }

  lemma FailureOpensExactly(c: Config, w: World, now: int)
    requires Inv(c, w) && Enabled(w, NormalEnds(false), now)
    ensures After(c, w.b, NormalEnds(false), now).state == if Crowded(c, w, now) then Open else w.b.state
  {
    StoredIsWindow(c, w, now);
  }

  lemma SuccessClosesExactly(c: Config, w: World, now: int)
    requires Inv(c, w) && Enabled(w, ProbeEnds(true), now)
    ensures After(c, w.b, ProbeEnds(true), now).state == if w.won + 1 == c.successThreshold then Closed else w.b.state
  {
  }

  // A closed breaker whose call fails opens exactly when, with this failure, the failures since the last clear that lie
  // in the window reach the threshold; a half-open one closes exactly with the last success its threshold asks for.
  lemma OpensAndClosesExactly(c: Config, w: World, acts: seq<Timed>, now: int)
    requires c.Valid() && Initial(w) && Legal(c, w, acts)
    ensures var w' := Run(c, w, acts);
            && (w'.b.state == Closed && Enabled(w', NormalEnds(false), now) ==>
                  (After(c, w'.b, NormalEnds(false), now).state == Open <==>
                   |Since(w'.failed + [now], Some(now - c.windowMs))| >= c.failureThreshold))
            && (w'.b.state == HalfOpen && Enabled(w', ProbeEnds(true), now) ==>
                  (After(c, w'.b, ProbeEnds(true), now).state == Closed <==> w'.won + 1 == c.successThreshold))
  {
    hide Inv, After, Enabled, Initial;
    var w' := Run(c, w, acts);
    InitialInv(c, w);
    InvAfter(c, w, acts);
    if Enabled(w', NormalEnds(false), now) {
      FailureOpensExactly(c, w', now);
    }
    if Enabled(w', ProbeEnds(true), now) {
      SuccessClosesExactly(c, w', now);
    }
  }
}
