/** The circuit breaker of server/circuitBreaker.ts as functions on its state: the synchronous pieces between
    two suspensions of a call. A call that was started completes later, in whatever state there is by then. */
module BreakerSpec {
  import opened Wrappers

  datatype State = Closed | Open | HalfOpen

  datatype Config = Config(failureThreshold: nat, successThreshold: nat, timeout: nat,
                           halfOpenMax: nat, windowMs: nat) {
    predicate Valid() {
      failureThreshold >= 1 && successThreshold >= 1 && halfOpenMax >= 1
    }
  }

  datatype Change = Change(from: State, to: State, at: int)

  datatype Breaker = Breaker(
    state: State, openedAt: Option<int>, failures: seq<int>, successes: nat, inflight: int,
    totalCalls: nat, totalFailures: nat, openCount: nat,
    lastFailure: Option<int>, lastSuccess: Option<int>,
    log: seq<Change>) // every state change so far, oldest first

  const FRESH := Breaker(Closed, None, [], 0, 0, 0, 0, 0, None, None, [])

  datatype Admission = Rejected(retryAfterMs: nat) | Normal | Probe

  function Log(b: Breaker, to: State, now: int): seq<Change> {
    b.log + [Change(b.state, to, now)]
  }

  function ToOpen(b: Breaker, now: int): Breaker {
    b.(state := Open, openedAt := Some(now), successes := 0, inflight := 0, openCount := b.openCount + 1,
       log := Log(b, Open, now))
  }

  function ToHalfOpen(b: Breaker, now: int): Breaker {
    b.(state := HalfOpen, successes := 0, inflight := 0, log := Log(b, HalfOpen, now))
  }

  function ToClosed(b: Breaker, now: int): Breaker {
    b.(state := Closed, failures := [], successes := 0, inflight := 0, openedAt := None, log := Log(b, Closed, now))
  }

  function ResetTo(b: Breaker, now: int): Breaker {
    b.(state := Closed, failures := [], successes := 0, inflight := 0, openedAt := None,
       log := if b.state != Closed then Log(b, Closed, now) else b.log)
  }

  // Open and past its timeout: the next look finds it half open.
  function Recover(c: Config, b: Breaker, now: int): Breaker {
    if b.state == Open && b.openedAt.Some? && now - b.openedAt.value >= c.timeout then ToHalfOpen(b, now) else b
  }

  // Drops old timestamps from the front.
  function FrontPrune(ts: seq<int>, cutoff: int): seq<int> {
    if ts != [] && ts[0] < cutoff then FrontPrune(ts[1..], cutoff) else ts
  }

  function PruneFailures(c: Config, b: Breaker, now: int): Breaker {
    b.(failures := FrontPrune(b.failures, now - c.windowMs))
  }

  function RecordFailure(c: Config, b: Breaker, now: int): Breaker {
    PruneFailures(c, b.(lastFailure := Some(now), totalFailures := b.totalFailures + 1,
                       failures := b.failures + [now]), now)
  }

  function RetryAfter(c: Config, b: Breaker, now: int): nat {
    if b.state == Open && b.openedAt.Some? && c.timeout - (now - b.openedAt.value) > 0
    then c.timeout - (now - b.openedAt.value) else 0
  }

  function Start(c: Config, b0: Breaker, now: int): (Breaker, Admission) {
    var b := Recover(c, b0, now);
    match b.state
    case Open => (b, Rejected(RetryAfter(c, b, now)))
    case HalfOpen =>
      if b.inflight >= c.halfOpenMax then (b, Rejected(RetryAfter(c, b, now)))
      else (b.(totalCalls := b.totalCalls + 1, inflight := b.inflight + 1), Probe)
    case Closed => (b.(totalCalls := b.totalCalls + 1), Normal)
  }

  function NormalDone(c: Config, b: Breaker, ok: bool, now: int): Breaker {
    if ok then b.(lastSuccess := Some(now))
    else
      var b1 := RecordFailure(c, b, now);
      if |b1.failures| >= c.failureThreshold then ToOpen(b1, now) else b1
  }

  function ProbeDone(c: Config, b: Breaker, ok: bool, now: int): Breaker {
    var b1 := b.(inflight := b.inflight - 1);
    if ok then
      var b2 := b1.(lastSuccess := Some(now), successes := b1.successes + 1);
      if b2.successes >= c.successThreshold then ToClosed(b2, now) else b2
    else ToOpen(RecordFailure(c, b1, now), now)
  }

  function Stats(c: Config, b: Breaker, now: int): Breaker {
    PruneFailures(c, Recover(c, b, now), now)
  }
}
