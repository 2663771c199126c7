/** The breaker object: its fields, changed in place, show the states of BreakerSpec. */
module CircuitBreakerModel {
  import opened Wrappers
  import opened BreakerSpec
  import opened RingBuffers
  import BreakerRuns

  class CircuitBreaker {
    const config: Config
    var state: State
    var openedAt: Option<int>
    var failureTimestamps: seq<int>
    var halfOpenSuccesses: nat
    var halfOpenInflight: int
    var totalCalls: nat
    var totalFailures: nat
    var openCount: nat
    var lastFailure: Option<int>
    var lastSuccess: Option<int>
    const eventLog: RingBuffer<Change>

    ghost predicate Valid()
      reads this, eventLog, eventLog.buffer
    {
      config.Valid() && eventLog.Valid() && eventLog.capacity == 50
    }

    // The state shown by the fields; the log holds every change ever pushed.
    ghost function View(): Breaker
      reads this, eventLog
    {
      Breaker(state, openedAt, failureTimestamps, halfOpenSuccesses, halfOpenInflight, totalCalls, totalFailures,
              openCount, lastFailure, lastSuccess, eventLog.pushed)
    }

    constructor (config: Config)
      requires config.Valid()
      ensures Valid() && View() == FRESH && this.config == config && fresh(eventLog) && fresh(eventLog.buffer)
    {
      this.config := config;
      state, openedAt, failureTimestamps, halfOpenSuccesses, halfOpenInflight := Closed, None, [], 0, 0;
      totalCalls, totalFailures, openCount, lastFailure, lastSuccess := 0, 0, 0, None, None;
      eventLog := new RingBuffer(50);
    }

    // The synchronous part of a call: what it may do, and what it has changed when the callee has been started. If the
    // callee throws before it returns a promise, nothing is under way and no settlement follows.
    method Execute(now: int, calleeThrows: bool) returns (admission: Admission, underway: bool)
      requires Valid()
      modifies this, eventLog, eventLog.buffer
      ensures Valid() && (View(), admission) == Start(config, old(View()), now)
      ensures underway <==> !admission.Rejected? && !calleeThrows
    {
      MaybeTryRecover(now);
      underway := false;
      match state
      case Open =>
        var retry := RetryAfterMs(now);
        admission := Rejected(retry);
      case HalfOpen =>
        if halfOpenInflight >= config.halfOpenMax {
          var retry := RetryAfterMs(now);
          admission := Rejected(retry);
        } else {
          totalCalls := totalCalls + 1;
          halfOpenInflight := halfOpenInflight + 1;
          admission, underway := Probe, !calleeThrows;
        }
      case Closed =>
        totalCalls := totalCalls + 1;
        admission, underway := Normal, !calleeThrows;
    }

    method NormalSettles(ok: bool, now: int)
      requires Valid()
      modifies this, eventLog, eventLog.buffer
      ensures Valid() && View() == NormalDone(config, old(View()), ok, now)
    {
      if ok {
        lastSuccess := Some(now);
      } else {
        RecordOneFailure(now);
        if |failureTimestamps| >= config.failureThreshold {
          TransitionToOpen(now);
        }
      }
    }

    method ProbeSettles(ok: bool, now: int)
      requires Valid()
      modifies this, eventLog, eventLog.buffer
      ensures Valid() && View() == ProbeDone(config, old(View()), ok, now)
    {
      halfOpenInflight := halfOpenInflight - 1;
      if ok {
        lastSuccess := Some(now);
        halfOpenSuccesses := halfOpenSuccesses + 1;
        if halfOpenSuccesses >= config.successThreshold {
          TransitionToClosed(now);
        }
      } else {
        RecordOneFailure(now);
        TransitionToOpen(now);
      }
    }

    method GetState(now: int) returns (s: State)
      requires Valid()
      modifies this, eventLog, eventLog.buffer
      ensures Valid() && View() == Recover(config, old(View()), now) && s == state
    {
      MaybeTryRecover(now);
      s := state;
    }

    method GetStats(now: int) returns (s: State, failures: nat, successes: nat)
      requires Valid()
      modifies this, eventLog, eventLog.buffer
      ensures Valid() && View() == Stats(config, old(View()), now)
      ensures s == state && failures == |failureTimestamps| && successes == halfOpenSuccesses
    {
      MaybeTryRecover(now);
      PruneOldFailures(now);
      s, failures, successes := state, |failureTimestamps|, halfOpenSuccesses;
    }

    method Reset(now: int)
      requires Valid()
      modifies this, eventLog, eventLog.buffer
      ensures Valid() && View() == ResetTo(old(View()), now)
    {
      var prev := state;
      state := Closed;
      failureTimestamps := [];
      halfOpenSuccesses, halfOpenInflight := 0, 0;
      openedAt := None;
      if prev != Closed {
        eventLog.Push(Change(prev, Closed, now));
      }
    }

    method Trip(now: int)
      requires Valid()
      modifies this, eventLog, eventLog.buffer
      ensures Valid() && View() == ToOpen(old(View()), now)
    {
      TransitionToOpen(now);
    }

    // The last fifty changes, oldest first.
    method GetEventLog() returns (changes: seq<Change>)
      requires Valid()
      ensures changes == LastN(View().log, 50)
    {
      changes := eventLog.ToArray();
    }

    method MaybeTryRecover(now: int)
      requires Valid()
      modifies this`state, this`halfOpenSuccesses, this`halfOpenInflight, eventLog, eventLog.buffer
      ensures Valid() && View() == Recover(config, old(View()), now)
    {
      if state == Open && openedAt.Some? && now - openedAt.value >= config.timeout {
        var prev := state;
        state := HalfOpen;
        halfOpenSuccesses, halfOpenInflight := 0, 0;
        eventLog.Push(Change(prev, HalfOpen, now));
      }
    }

    method TransitionToOpen(now: int)
      requires Valid()
      modifies this, eventLog, eventLog.buffer
      ensures Valid() && View() == ToOpen(old(View()), now)
    {
      var prev := state;
      state, openedAt := Open, Some(now);
      halfOpenSuccesses, halfOpenInflight := 0, 0;
      openCount := openCount + 1;
      eventLog.Push(Change(prev, Open, now));
    }

    method TransitionToClosed(now: int)
      requires Valid()
      modifies this, eventLog, eventLog.buffer
      ensures Valid() && View() == ToClosed(old(View()), now)
    {
      var prev := state;
      state, openedAt, failureTimestamps := Closed, None, [];
      halfOpenSuccesses, halfOpenInflight := 0, 0;
      eventLog.Push(Change(prev, Closed, now));
    }

    method RecordOneFailure(now: int)
      requires Valid()
      modifies this`lastFailure, this`totalFailures, this`failureTimestamps
      ensures Valid() && View() == RecordFailure(config, old(View()), now)
    {
      lastFailure := Some(now);
      totalFailures := totalFailures + 1;
      failureTimestamps := failureTimestamps + [now];
      PruneOldFailures(now);
    }

    method PruneOldFailures(now: int)
      requires Valid()
      modifies this`failureTimestamps
      ensures Valid() && View() == PruneFailures(config, old(View()), now)
    {
      var cutoff := now - config.windowMs;
      var i := 0;
      while i < |failureTimestamps| && failureTimestamps[i] < cutoff
        invariant i <= |failureTimestamps|
        invariant FrontPrune(failureTimestamps, cutoff) == FrontPrune(failureTimestamps[i..], cutoff)
      {
        assert failureTimestamps[i..][1..] == failureTimestamps[i + 1..];
        i := i + 1;
      }
      if i > 0 {
        failureTimestamps := failureTimestamps[i..];
      }
    }

    method RetryAfterMs(now: int) returns (ms: nat)
      ensures ms == RetryAfter(config, View(), now)
    {
      if state == Open && openedAt.Some? {
        var elapsed := now - openedAt.value;
        ms := if config.timeout - elapsed > 0 then config.timeout - elapsed else 0;
      } else {
        ms := 0;
      }
    }
  }

  // What is reported of a log that is a chain is one: each change starts where the one before ended, and the last one
  // ends in the current state.
  lemma ReportedChain(log: seq<Change>, state: State)
    requires BreakerRuns.Chain(log, state)
    ensures var changes := LastN(log, 50);
            && (forall i | 0 <= i < |changes| - 1 :: changes[i].to == changes[i + 1].from)
            && (log != [] ==> changes != [] && changes[|changes| - 1].to == state)
  {
    var changes := LastN(log, 50);
    var skipped := |log| - |changes|;
    assert forall i | 0 <= i < |changes| :: changes[i] == log[skipped + i];
  }
}
