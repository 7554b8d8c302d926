/** The sliding-window rate limiter over a store of sorted sets. */
module RateLimit {
  import opened Sequences
  import opened Sorting

  /** The sorted set of one scope: the scores, ascending, and when the key expires. */
  datatype Scores = Scores(entries: seq<real>, expiry: Option<real>)

  const EMPTY: Scores := Scores([], None)

  predicate AtMost(a: real, b: real) { a <= b }

  /** Removes the scores in 0..cutoff. */
  function Trim(entries: seq<real>, cutoff: real): seq<real> {
    if entries == [] then []
    else Trim(entries[..|entries| - 1], cutoff)
         + (if 0.0 <= Last(entries) <= cutoff then [] else [Last(entries)])
  }

  /** What is left of the set at `now`: nothing once its key has expired. */
  function Live(s: Scores, now: real): seq<real> {
    if s.expiry.Some? && now >= s.expiry.value then [] else s.entries
  }

  /** The scores right after an attempt is recorded. */
  function Recorded(s: Scores, now: real, window: int): seq<real> {
    Insert(Trim(Live(s, now), now - window as real), now, AtMost)
  }

  function AfterAttempt(s: Scores, now: real, window: int): Scores {
    Scores(Recorded(s, now, window), Some(now + window as real))
  }

  predicate Allows(s: Scores, now: real, limit: int, window: int) {
    |Recorded(s, now, window)| <= limit
  }

  /** Seconds until the oldest entry leaves the window, for a rejected attempt. */
  function RetryAfter(s: Scores, now: real, window: int): int {
    var left := Live(AfterAttempt(s, now, window), now);
    if left == [] then 0 else Max(1, Truncated(window as real - (now - left[0])) + 1)
  }

  /** Python's `int` of a float. */
  function Truncated(x: real): int { if x >= 0.0 then x.Floor else -((-x).Floor) }

  class RateLimitStore {
    var sets: map<string, Scores>

    constructor ()
      ensures sets == map[]
    {
      sets := map[];
    }

    ghost function Scope(scope: string): Scores
      reads this
    {
      if scope in sets then sets[scope] else EMPTY
    }

    /** One attempt at `now`, in up to two round trips: the transaction that records and counts
        it, whose reply may be lost, and the fetch of the oldest entry when the count is over
        the limit. An attempt is let through when any of this fails; it is recorded whenever
        the transaction executes. */
    method Check(
      scope: string, now: real, limit: int, window: int, executes: bool, replies: bool, fetches: bool)
      returns (allowed: bool, retryAfter: int)
      modifies this
      ensures sets == if executes then old(sets)[scope := AfterAttempt(old(Scope(scope)), now, window)] else old(sets)
      ensures executes ==> sets[scope].expiry == Some(now + window as real)
      ensures allowed <==> !executes || !replies || Allows(old(Scope(scope)), now, limit, window) || !fetches
      ensures retryAfter == if allowed then 0 else RetryAfter(old(Scope(scope)), now, window)
    {
      if !executes { return true, 0; }
      var found := if scope in sets then sets[scope] else EMPTY;
      var entries := if found.expiry.Some? && now >= found.expiry.value then [] else found.entries;
      entries := RemoveRange(entries, now - window as real);
      entries := Insert(entries, now, AtMost);
      var count := |entries|;
      var after := Scores(entries, Some(now + window as real));
      sets := sets[scope := after];
      if !replies { return true, 0; }
      if count <= limit { return true, 0; }
      if !fetches { return true, 0; }
      var oldest := Live(after, now);
      retryAfter := 0;
      if oldest != [] { retryAfter := Max(1, Truncated(window as real - (now - oldest[0])) + 1); }
      allowed := false;
    }
  }

  /** The store's range removal. */
  method RemoveRange(entries: seq<real>, cutoff: real) returns (kept: seq<real>)
    ensures kept == Trim(entries, cutoff)
  {
    kept := [];
    for i := 0 to |entries|
      invariant kept == Trim(entries[..i], cutoff)
    {
      SliceAppend(entries, 0, i);
      TrimAppend(entries[..i], entries[i], cutoff);
      if !(0.0 <= entries[i] <= cutoff) { kept := kept + [entries[i]]; }
    }
    assert entries[..|entries|] == entries;
  }

  lemma {:induction false} TrimAppend(entries: seq<real>, s: real, cutoff: real)
    ensures Trim(entries + [s], cutoff) == Trim(entries, cutoff) + (if 0.0 <= s <= cutoff then [] else [s])
  {
    assert (entries + [s])[..|entries|] == entries;
  }

  // ---------------------------------------------------------------- runs

  predicate Tick(times: seq<real>, i: nat)
    requires i < |times|
  {
    0.0 <= times[i] && (i > 0 ==> times[i - 1] <= times[i])
  }

  /** Attempts of one scope, by a clock that does not run backwards. */
  ghost predicate Clock(times: seq<real>) {
    forall i :: 0 <= i < |times| ==> Tick(times, i)
  }

  lemma {:induction false} ClockMonotone(times: seq<real>, i: nat, j: nat)
    requires Clock(times) && i <= j < |times|
    ensures 0.0 <= times[i] <= times[j]
  {
    assert Tick(times, j);
    if i < j { ClockMonotone(times, i, j - 1); }
  }

  /** The set after the first `k` attempts. */
  function StateAt(times: seq<real>, window: int, k: nat): Scores
    requires k <= |times|
  {
    if k == 0 then EMPTY else AfterAttempt(StateAt(times, window, k - 1), times[k - 1], window)
  }

  /** Attempts counted at attempt `k`. */
  function CountAt(times: seq<real>, window: int, k: nat): nat
    requires k < |times|
  {
    |Recorded(StateAt(times, window, k), times[k], window)|
  }

  predicate Allowed(times: seq<real>, limit: int, window: int, k: nat)
    requires k < |times|
  {
    CountAt(times, window, k) <= limit
  }

  /** The times among the first `n` that are after `cutoff`. */
  function After(times: seq<real>, n: nat, cutoff: real): seq<real>
    requires n <= |times|
  {
    if n == 0 then []
    else After(times, n - 1, cutoff) + (if times[n - 1] > cutoff then [times[n - 1]] else [])
  }

  lemma {:induction false} NoneAfter(times: seq<real>, n: nat, cutoff: real)
    requires n <= |times| && Clock(times) && (n > 0 ==> times[n - 1] <= cutoff)
    ensures After(times, n, cutoff) == []
  {
    if n > 0 {
      assert Tick(times, n - 1);
      NoneAfter(times, n - 1, cutoff);
    }
  }

  lemma {:induction false} TrimAfter(times: seq<real>, n: nat, cutoff: real, later: real)
    requires n <= |times| && Clock(times) && cutoff <= later
    ensures Trim(After(times, n, cutoff), later) == After(times, n, later)
  {
    if n > 0 {
      hide Trim;
      TrimAfter(times, n - 1, cutoff, later);
      assert Tick(times, n - 1);
      if times[n - 1] > cutoff {
        TrimAppend(After(times, n - 1, cutoff), times[n - 1], later);
      } else {
        assert After(times, n, cutoff) == After(times, n - 1, cutoff);
      }
    }
  }

  lemma {:induction false} AfterMembers(times: seq<real>, n: nat, cutoff: real)
    requires n <= |times| && Clock(times)
    ensures forall i :: 0 <= i < |After(times, n, cutoff)| ==>
              After(times, n, cutoff)[i] > cutoff && (n > 0 ==> After(times, n, cutoff)[i] <= times[n - 1])
  {
    if n > 0 {
      assert Tick(times, n - 1);
      AfterMembers(times, n - 1, cutoff);
    }
  }

  lemma {:induction false} InsertLatest(entries: seq<real>, t: real)
    requires entries == [] || Last(entries) <= t
    ensures Insert(entries, t, AtMost) == entries + [t]
  {
  }

  /** Entries recorded by attempt `k - 1`, trimmed for attempt `k`; expiry drops only what the
      trimming drops. */
  lemma {:induction false} LeftOver(times: seq<real>, window: int, k: nat, previous: real)
    requires Clock(times) && window >= 1 && 0 < k < |times| && previous == times[k - 1]
    ensures var left := After(times, k, previous - window as real);
            var cutoff := times[k] - window as real;
            && Trim(left, cutoff) == After(times, k, cutoff)
            && (times[k] >= previous + window as real ==> After(times, k, cutoff) == [])
  {
    assert Tick(times, k);
    TrimAfter(times, k, previous - window as real, times[k] - window as real);
    if times[k] >= previous + window as real { NoneAfter(times, k, times[k] - window as real); }
  }

  lemma {:induction false} RecordAfter(times: seq<real>, k: nat, cutoff: real)
    requires Clock(times) && k < |times| && times[k] > cutoff
    ensures Insert(After(times, k, cutoff), times[k], AtMost) == After(times, k + 1, cutoff)
  {
    AfterMembers(times, k, cutoff);
    assert Tick(times, k);
    InsertLatest(After(times, k, cutoff), times[k]);
  }

  /** The set `s` holds the last window of the first `k` attempts; its key may have an expiry. */
  predicate HoldsWindow(s: Scores, times: seq<real>, window: int, k: nat)
    requires k <= |times|
  {
    if k == 0 then s == EMPTY
    else
      && s.entries == After(times, k, times[k - 1] - window as real)
      && (s.expiry == None || s.expiry == Some(times[k - 1] + window as real))
  }

  lemma {:induction false} TrimmedLive(times: seq<real>, window: int, k: nat, s: Scores)
    requires Clock(times) && window >= 1 && k < |times| && HoldsWindow(s, times, window, k)
    ensures Trim(Live(s, times[k]), times[k] - window as real) == After(times, k, times[k] - window as real)
  {
    if k > 0 { LeftOver(times, window, k, times[k - 1]); }
  }

  lemma {:induction false} RecordFrom(times: seq<real>, window: int, k: nat, s: Scores)
    requires Clock(times) && window >= 1 && k < |times| && HoldsWindow(s, times, window, k)
    ensures Recorded(s, times[k], window) == After(times, k + 1, times[k] - window as real)
  {
    hide After, Trim, Live, HoldsWindow, Clock, Insert;
    TrimmedLive(times, window, k, s);
    RecordAfter(times, k, times[k] - window as real);
  }

  lemma {:induction false} StateHoldsWindow(times: seq<real>, window: int, k: nat)
    requires Clock(times) && window >= 1 && k <= |times|
    ensures HoldsWindow(StateAt(times, window, k), times, window, k)
  {
    hide Recorded, After;
    if k > 0 {
      StateHoldsWindow(times, window, k - 1);
      RecordFrom(times, window, k - 1, StateAt(times, window, k - 1));
    }
  }

  /** At every attempt the set holds exactly the attempts of the last window, this one
      included, allowed or not; expiry of the key loses none of them. */
  lemma {:induction false} RecordedIsWindow(times: seq<real>, window: int, k: nat)
    requires Clock(times) && window >= 1 && k < |times|
    ensures Recorded(StateAt(times, window, k), times[k], window)
            == After(times, k + 1, times[k] - window as real)
  {
    StateHoldsWindow(times, window, k);
    RecordFrom(times, window, k, StateAt(times, window, k));
  }

  lemma {:induction false} RecordedWithoutExpiry(times: seq<real>, window: int, k: nat)
    requires Clock(times) && window >= 1 && k < |times|
    ensures var s := StateAt(times, window, k);
            Recorded(s, times[k], window) == Recorded(s.(expiry := None), times[k], window)
  {
    StateHoldsWindow(times, window, k);
    RecordFrom(times, window, k, StateAt(times, window, k));
    RecordFrom(times, window, k, StateAt(times, window, k).(expiry := None));
  }

  /** What a store that keeps an expired key, or drops it, has of the set at an attempt. */
  function Found(s: Scores, drops: bool): Scores {
    if drops then s else s.(expiry := None)
  }

  /** The set after the first `k` attempts, when the store drops an expired key at some attempts
      and still has it at others. */
  function StateWith(times: seq<real>, window: int, drops: seq<bool>, k: nat): Scores
    requires k <= |times| && k <= |drops|
  {
    if k == 0 then EMPTY
    else AfterAttempt(Found(StateWith(times, window, drops, k - 1), drops[k - 1]), times[k - 1], window)
  }

  lemma {:induction false} SameState(times: seq<real>, window: int, drops: seq<bool>, k: nat)
    requires Clock(times) && window >= 1 && k <= |times| && k <= |drops|
    ensures StateWith(times, window, drops, k) == StateAt(times, window, k)
  {
    hide Recorded;
    if k > 0 {
      SameState(times, window, drops, k - 1);
      RecordedWithoutExpiry(times, window, k - 1);
    }
  }

  /** Over any run, at whichever attempts the store drops an expired key, the sets, the
      decisions and the waiting times are the same. */
  lemma {:induction false} ExpiryIrrelevant(
    times: seq<real>, limit: int, window: int, drops: seq<bool>, k: nat)
    requires Clock(times) && window >= 1 && k < |times| && k < |drops|
    ensures StateWith(times, window, drops, k) == StateAt(times, window, k)
    ensures var s, t := Found(StateWith(times, window, drops, k), drops[k]), StateAt(times, window, k);
            && (Allows(s, times[k], limit, window) <==> Allows(t, times[k], limit, window))
            && RetryAfter(s, times[k], window) == RetryAfter(t, times[k], window)
  {
    hide Recorded;
    SameState(times, window, drops, k);
    RecordedWithoutExpiry(times, window, k);
  }

  lemma {:induction false} MoreThan(times: seq<real>, n: nat, cutoff: real, limit: nat)
    requires Clock(times) && n <= |times|
    ensures |After(times, n, cutoff)| > limit <==> n > limit && times[n - 1 - limit] > cutoff
  {
    if n > 0 {
      if times[n - 1] <= cutoff {
        NoneAfter(times, n, cutoff);
        if n > limit { ClockMonotone(times, n - 1 - limit, n - 1); }
      } else if limit > 0 {
        MoreThan(times, n - 1, cutoff, limit - 1);
      }
    }
  }

  lemma {:induction false} CountFacts(times: seq<real>, limit: nat, window: int, k: nat)
    requires Clock(times) && window >= 1 && k < |times|
    ensures CountAt(times, window, k) > limit <==> k >= limit && times[k - limit] > times[k] - window as real
  {
    hide Recorded, After;
    RecordedIsWindow(times, window, k);
    MoreThan(times, k + 1, times[k] - window as real, limit);
  }

  /** An attempt is let through exactly when fewer than `limit` attempts came before it or the
      `limit`-th attempt before it is at least a window old; rejected attempts count as well. */
  lemma {:induction false} Decision(times: seq<real>, limit: nat, window: int, k: nat)
    requires Clock(times) && window >= 1 && k < |times|
    ensures Allowed(times, limit, window, k) <==> k < limit || times[k - limit] + window as real <= times[k]
    ensures Allowed(times, limit, window, k) <==> Allows(StateAt(times, window, k), times[k], limit, window)
  {
    CountFacts(times, limit, window, k);
  }

  /** A half-open interval as long as the window, open at its start or at its end. */
  predicate InInterval(t: real, start: real, window: int, openStart: bool) {
    if openStart then start < t <= start + window as real else start <= t < start + window as real
  }

  /** The decisions on the first `n` attempts. */
  function Decisions(times: seq<real>, limit: int, window: int, n: nat): (decisions: seq<bool>)
    requires n <= |times|
    ensures |decisions| == n
  {
    if n == 0 then [] else Decisions(times, limit, window, n - 1) + [Allowed(times, limit, window, n - 1)]
  }

  /** How many of the first `n` attempts fall in the interval and are let through. */
  function AllowedWithin(
    times: seq<real>, decisions: seq<bool>, window: int, start: real, openStart: bool, n: nat): nat
    requires n <= |times| && n <= |decisions|
  {
    if n == 0 then 0
    else AllowedWithin(times, decisions, window, start, openStart, n - 1)
         + (if decisions[n - 1] && InInterval(times[n - 1], start, window, openStart) then 1 else 0)
  }

  lemma {:induction false} FewerThanWindow(
    times: seq<real>, decisions: seq<bool>, window: int, start: real, openStart: bool, n: nat, cutoff: real)
    requires n <= |times| && n <= |decisions|
    requires cutoff < start || (openStart && cutoff == start)
    ensures AllowedWithin(times, decisions, window, start, openStart, n) <= |After(times, n, cutoff)|
  {
    if n > 0 { FewerThanWindow(times, decisions, window, start, openStart, n - 1, cutoff); }
  }

  lemma {:induction false} DecisionAt(times: seq<real>, limit: int, window: int, n: nat, k: nat)
    requires k < n <= |times|
    ensures Decisions(times, limit, window, n)[k] == Allowed(times, limit, window, k)
  {
    hide Allowed;
    if k < n - 1 { DecisionAt(times, limit, window, n - 1, k); }
  }

  lemma {:induction false} WindowSafetyUpTo(
    times: seq<real>, decisions: seq<bool>, limit: int, window: int, start: real, openStart: bool, n: nat)
    requires Clock(times) && window >= 1 && n <= |times| && n <= |decisions|
    requires forall k :: 0 <= k < n && decisions[k] ==> |After(times, k + 1, times[k] - window as real)| <= limit
    ensures AllowedWithin(times, decisions, window, start, openStart, n) <= Max(0, limit)
  {
    if n > 0 {
      if decisions[n - 1] && InInterval(times[n - 1], start, window, openStart) {
        FewerThanWindow(times, decisions, window, start, openStart, n, times[n - 1] - window as real);
      } else {
        WindowSafetyUpTo(times, decisions, limit, window, start, openStart, n - 1);
      }
    }
  }

  /** Over any run, at most `limit` attempts are let through in every half-open interval as
      long as the window. */
  lemma {:induction false} WindowSafety(times: seq<real>, limit: int, window: int, start: real, openStart: bool)
    requires Clock(times) && window >= 1
    ensures AllowedWithin(times, Decisions(times, limit, window, |times|), window, start, openStart, |times|)
            <= Max(0, limit)
  {
    hide Recorded;
    var decisions := Decisions(times, limit, window, |times|);
    forall k | 0 <= k < |times| && decisions[k]
      ensures |After(times, k + 1, times[k] - window as real)| <= limit
    {
      DecisionAt(times, limit, window, |times|, k);
      RecordedIsWindow(times, window, k);
    }
    WindowSafetyUpTo(times, decisions, limit, window, start, openStart, |times|);
  }

  /** A rejected attempt is told to wait 1 to window + 1 seconds: the least whole number after
      which the oldest recorded attempt has left the window. */
  lemma {:induction false} RetryOutlastsOldest(times: seq<real>, limit: nat, window: int, k: nat)
    requires Clock(times) && window >= 1 && k < |times| && !Allowed(times, limit, window, k)
    ensures var recorded := Recorded(StateAt(times, window, k), times[k], window);
            var retry := RetryAfter(StateAt(times, window, k), times[k], window);
            && recorded != [] && 1 <= retry <= window + 1
            && recorded[0] + window as real < times[k] + retry as real <= recorded[0] + window as real + 1.0
  {
    hide Recorded, StateAt;
    RecordedIsWindow(times, window, k);
    AfterMembers(times, k + 1, times[k] - window as real);
  }

  /** Gaps below `gap` add up: `j` of them span less than `j * gap`. */
  lemma {:induction false} GapsAdd(times: seq<real>, gap: real, i: nat, j: nat)
    requires 1 <= j && i + j < |times|
    requires forall k :: 0 <= k < |times| - 1 ==> times[k + 1] - times[k] < gap
    ensures times[i + j] - times[i] < j as real * gap
  {
    if j == 1 {
      assert times[i + 1] - times[i] < gap;
    } else {
      GapsAdd(times, gap, i, j - 1);
      assert times[(i + j - 1) + 1] - times[i + j - 1] < gap;
      assert (j - 1) as real * gap + gap == j as real * gap;
    }
  }

  lemma {:induction false} SharesAddUp(whole: real, shares: real)
    requires shares > 0.0
    ensures shares * (whole / shares) == whole
  {
  }

  lemma {:induction false} SpansLess(times: seq<real>, limit: nat, window: int, k: nat)
    requires 1 <= limit <= k < |times|
    requires forall i :: 0 <= i < |times| - 1 ==> times[i + 1] - times[i] < window as real / limit as real
    ensures times[k] - times[k - limit] < window as real
  {
    var gap := window as real / limit as real;
    SharesAddUp(window as real, limit as real);
    GapsAdd(times, gap, k - limit, limit);
  }

  /** A client that keeps retrying faster than the limit's average rate, each time within
      `window / limit` seconds, is let through `limit` times and never again: the rejected
      attempts are recorded too and keep it out. */
  lemma {:induction false} HammeringStaysBlocked(times: seq<real>, limit: nat, window: int, k: nat)
    requires Clock(times) && window >= 1 && 1 <= limit && k < |times|
    requires forall i :: 0 <= i < |times| - 1 ==> times[i + 1] - times[i] < window as real / limit as real
    ensures Allowed(times, limit, window, k) <==> k < limit
  {
    hide Allowed, Clock;
    Decision(times, limit, window, k);
    if limit <= k { SpansLess(times, limit, window, k); }
  }
}
