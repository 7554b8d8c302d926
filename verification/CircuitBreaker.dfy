/** The circuit breaker of one provider, as an object and over every history of calls. */
module CircuitBreaker {
  import opened Sequences

  datatype Status = Closed | Open | HalfOpen

  /** The fields that decide whether calls are admitted. Times are seconds. */
  datatype Breaker = Breaker(
    threshold: int, recoveryTimeout: real, status: Status, failures: nat, lastFailure: Option<real>)

  function NewBreaker(threshold: int, recoveryTimeout: real): Breaker {
    Breaker(threshold, recoveryTimeout, Closed, 0, None)
  }

  /** What happens to a breaker, with the clock reading where it matters. */
  datatype Event = Success | Failure(at: real) | Attempt(at: real)

  predicate Recovered(b: Breaker, now: real) {
    b.lastFailure.Some? && now - b.lastFailure.value > b.recoveryTimeout
  }

  predicate Admits(b: Breaker, now: real) {
    b.status != Open || Recovered(b, now)
  }

  function After(b: Breaker, event: Event): Breaker {
    match event
    case Success => b.(failures := 0, status := if b.status == HalfOpen then Closed else b.status)
    case Failure(at) =>
      b.(failures := b.failures + 1, lastFailure := Some(at),
         status := if b.failures + 1 >= b.threshold then Open else b.status)
    case Attempt(at) =>
      b.(status := if b.status == Open && Recovered(b, at) then HalfOpen else b.status)
  }

  class CircuitBreakerState {
    const failureThreshold: int
    const recoveryTimeout: real
    var failureCount: nat
    var lastFailureTime: Option<real>
    var currentState: Status

    ghost function Value(): Breaker
      reads this
    {
      Breaker(failureThreshold, recoveryTimeout, currentState, failureCount, lastFailureTime)
    }

    constructor (threshold: int, timeout: real)
      ensures Value() == NewBreaker(threshold, timeout)
    {
      failureThreshold, recoveryTimeout := threshold, timeout;
      failureCount, lastFailureTime, currentState := 0, None, Closed;
    }

    method RecordSuccess()
      modifies this
      ensures Value() == After(old(Value()), Success)
    {
      failureCount := 0;
      if currentState == HalfOpen { currentState := Closed; }
    }

    method RecordFailure(now: real)
      modifies this
      ensures Value() == After(old(Value()), Failure(now))
    {
      failureCount := failureCount + 1;
      lastFailureTime := Some(now);
      if failureCount >= failureThreshold { currentState := Open; }
    }

    method CanAttempt(now: real) returns (admitted: bool)
      modifies this`currentState
      ensures Value() == After(old(Value()), Attempt(now))
      ensures admitted == Admits(old(Value()), now)
    {
      if currentState == Closed { return true; }
      if currentState == Open {
        if lastFailureTime.Some? && now - lastFailureTime.value > recoveryTimeout {
          currentState := HalfOpen;
          return true;
        }
        return false;
      }
      return true;
    }
  }

  // ---------------------------------------------------------------- histories

  /** The breaker after the first `k` events of a history. */
  function At(b: Breaker, events: seq<Event>, k: nat): Breaker
    requires k <= |events|
  {
    if k == 0 then b else After(At(b, events, k - 1), events[k - 1])
  }

  function FailuresSinceSuccess(events: seq<Event>, k: nat): nat
    requires k <= |events|
  {
    if k == 0 || events[k - 1].Success? then 0
    else FailuresSinceSuccess(events, k - 1) + (if events[k - 1].Failure? then 1 else 0)
  }

  function LastFailureTime(events: seq<Event>, k: nat): Option<real>
    requires k <= |events|
  {
    if k == 0 then None
    else if events[k - 1].Failure? then Some(events[k - 1].at)
    else LastFailureTime(events, k - 1)
  }

  /** In every reachable state the count is that of failures since the last success, a closed
      breaker is below its threshold, and one that is not closed has a last failure. */
  lemma {:induction false} Reachable(threshold: int, timeout: real, events: seq<Event>, k: nat)
    requires threshold >= 1 && k <= |events|
    ensures var b := At(NewBreaker(threshold, timeout), events, k);
            && b.threshold == threshold && b.recoveryTimeout == timeout
            && b.failures == FailuresSinceSuccess(events, k)
            && b.lastFailure == LastFailureTime(events, k)
            && (b.status == Closed ==> b.failures < threshold)
            && (b.status != Closed ==> b.lastFailure.Some?)
  {
    if k > 0 { Reachable(threshold, timeout, events, k - 1); }
  }

  /** A breaker leaves CLOSED exactly at the failure that completes `threshold` of them with
      no success between. */
  lemma {:induction false} LeavesClosed(threshold: int, timeout: real, events: seq<Event>, k: nat)
    requires threshold >= 1 && k < |events|
    requires At(NewBreaker(threshold, timeout), events, k).status == Closed
    ensures At(NewBreaker(threshold, timeout), events, k + 1).status != Closed
            <==> events[k].Failure? && FailuresSinceSuccess(events, k + 1) == threshold
  {
    Reachable(threshold, timeout, events, k);
    Reachable(threshold, timeout, events, k + 1);
  }

  /** From OPEN to CLOSED the only way is a success recorded in HALF_OPEN. */
  lemma {:induction false} ReopensThroughHalfOpen(b: Breaker, events: seq<Event>, i: nat, j: nat)
    returns (m: nat)
    requires i < j <= |events| && At(b, events, i).status == Open && At(b, events, j).status == Closed
    ensures i < m < j && At(b, events, m).status == HalfOpen
    ensures events[m] == Success && At(b, events, m + 1).status == Closed
  {
    if At(b, events, j - 1).status == Closed {
      m := ReopensThroughHalfOpen(b, events, i, j - 1);
    } else {
      m := j - 1;
    }
  }

  /** An OPEN breaker refuses up to `recoveryTimeout` after the last failure of its history,
      admits at every later time, and admitting turns it HALF_OPEN; any other state admits at
      all times. So no reachable state refuses for ever. */
  lemma {:induction false} RefusesUntilRecovered(
    threshold: int, timeout: real, events: seq<Event>, k: nat, now: real)
    requires threshold >= 1 && k <= |events|
    ensures var b := At(NewBreaker(threshold, timeout), events, k);
            && (b.status == Open ==>
                  LastFailureTime(events, k).Some?
                  && (Admits(b, now) <==> now > LastFailureTime(events, k).value + timeout))
            && (b.status != Open ==> Admits(b, now))
            && (Admits(b, now) <==> After(b, Attempt(now)).status != Open)
  {
    Reachable(threshold, timeout, events, k);
  }

  /** A failure in HALF_OPEN reopens exactly when it completes `threshold` failures since the
      last success; otherwise the breaker stays HALF_OPEN. */
  lemma {:induction false} HalfOpenFailure(threshold: int, timeout: real, events: seq<Event>, k: nat)
    requires threshold >= 1 && k < |events| && events[k].Failure?
    requires At(NewBreaker(threshold, timeout), events, k).status == HalfOpen
    ensures At(NewBreaker(threshold, timeout), events, k + 1).status
            == if FailuresSinceSuccess(events, k) + 1 >= threshold then Open else HalfOpen
  {
    Reachable(threshold, timeout, events, k);
  }

  /** `n` failures at time 0. */
  function Failures(n: nat): seq<Event> {
    if n == 0 then [] else Failures(n - 1) + [Failure(0.0)]
  }

  lemma {:induction false} FailuresOpen(b: Breaker, n: nat)
    requires b.status == Closed && b.failures == 0
    ensures |Failures(n)| == n
    ensures At(b, Failures(n), n)
            == b.(failures := n, lastFailure := if n == 0 then b.lastFailure else Some(0.0),
                  status := if n > 0 && n >= b.threshold then Open else Closed)
  {
    if n > 0 {
      FailuresOpen(b, n - 1);
      AtPrefix(b, Failures(n - 1), [Failure(0.0)], n - 1);
    }
  }

  lemma {:induction false} AtPrefix(b: Breaker, before: seq<Event>, after: seq<Event>, k: nat)
    requires k <= |before|
    ensures At(b, before + after, k) == At(b, before, k)
  {
    if k > 0 { AtPrefix(b, before, after, k - 1); }
  }

  /** For every threshold above one there is a history in which a failure in HALF_OPEN does not
      reopen: a success recorded while OPEN zeroes the count and leaves the state OPEN. */
  lemma {:induction false} HalfOpenFailureMayNotReopen(threshold: int, timeout: real)
    returns (events: seq<Event>)
    requires threshold > 1 && timeout >= 0.0
    ensures |events| == threshold + 3 && events[threshold] == Success && events[threshold + 2].Failure?
    ensures var b := NewBreaker(threshold, timeout);
            && At(b, events, threshold).status == Open
            && At(b, events, threshold + 1) == At(b, events, threshold).(failures := 0)
            && At(b, events, threshold + 2).status == HalfOpen
            && At(b, events, threshold + 3).status == HalfOpen
  {
    var b := NewBreaker(threshold, timeout);
    var tail := [Success, Attempt(timeout + 1.0), Failure(timeout + 2.0)];
    events := Failures(threshold) + tail;
    FailuresOpen(b, threshold);
    AtPrefix(b, Failures(threshold), tail, threshold);
    assert events[threshold + 1] == Attempt(timeout + 1.0) && events[threshold + 2] == Failure(timeout + 2.0);
    assert At(b, events, threshold + 2) == After(At(b, events, threshold + 1), events[threshold + 1]);
  }
}
