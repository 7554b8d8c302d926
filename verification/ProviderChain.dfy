/** The fallback chain over the configured providers: retries, backoff and breakers. */
module ProviderChain {
  import opened Sequences
  import opened CircuitBreaker
  import Text

  /** What a request yields: chunks, then an end. `Unavailable` is the provider error,
      `VendorError` any other exception. */
  datatype Ending = Finished | Unavailable(message: string) | VendorError(message: string)

  datatype Reply = Reply(chunks: seq<string>, ending: Ending)

  /** One call of a provider, and when its outcome is recorded. */
  datatype Call = Call(reply: Reply, at: real)

  /** One provider of the chain: the clock and quota it is checked against, and the outcome of
      each of its calls, one per allowed attempt. */
  datatype Rung = Rung(name: string, streams: bool, quotaExceeded: bool, now: real, calls: seq<Call>)

  type Breakers = map<string, Breaker>

  predicate Scripted(rungs: seq<Rung>, retries: nat) {
    forall r :: 0 <= r < |rungs| ==> |rungs[r].calls| == retries + 1
  }

  // ---------------------------------------------------------------- chain order

  function Candidates(primary: string, order: seq<string>): seq<string> {
    [primary] + Without(order, primary)
  }

  function Without(names: seq<string>, name: string): seq<string> {
    if names == [] then []
    else (if names[0] == name then [] else [names[0]]) + Without(names[1..], name)
  }

  function FirstIndex(names: seq<string>, name: string): nat {
    if names == [] || names[0] == name then 0 else 1 + FirstIndex(names[1..], name)
  }

  lemma {:induction false} FirstIndexAppend(names: seq<string>, last: string, name: string)
    ensures FirstIndex(names, name) <= |names|
    ensures name in names <==> FirstIndex(names, name) < |names|
    ensures FirstIndex(names + [last], name)
            == if name in names then FirstIndex(names, name)
               else if name == last then |names| else |names| + 1
  {
    if names == [] {
      assert ([last])[1..] == [];
    } else {
      assert (names + [last])[1..] == names[1..] + [last];
      FirstIndexAppend(names[1..], last, name);
      assert names == [names[0]] + names[1..];
    }
  }

  /** A list of names each once, in the order they first occur among the candidates. */
  ghost predicate FirstOccurrences(chain: seq<string>, candidates: seq<string>, keyed: set<string>) {
    && (forall n :: n in chain <==> n in candidates && n in keyed)
    && (forall i, j :: 0 <= i < j < |chain| ==> FirstIndex(candidates, chain[i]) < FirstIndex(candidates, chain[j]))
  }

  lemma {:induction false} OccurrencesAppend(
    chain: seq<string>, candidates: seq<string>, keyed: set<string>, name: string)
    requires FirstOccurrences(chain, candidates, keyed)
    ensures FirstOccurrences(
              if name in keyed && name !in chain then chain + [name] else chain, candidates + [name], keyed)
  {
    forall n { FirstIndexAppend(candidates, name, n); }
    forall i | 0 <= i < |chain|
      ensures chain[i] in candidates
    {
      assert chain[i] in chain;
    }
  }

  /** The chain is the primary provider, then the configured order, each keyed name once. */
  method BuildChain(primary: string, order: seq<string>, keyed: set<string>) returns (chain: seq<string>)
    ensures FirstOccurrences(chain, Candidates(primary, order), keyed)
  {
    var candidates := Candidates(primary, order);
    chain := [];
    for i := 0 to |candidates|
      invariant FirstOccurrences(chain, candidates[..i], keyed)
    {
      OccurrencesAppend(chain, candidates[..i], keyed, candidates[i]);
      SliceAppend(candidates, 0, i);
      if candidates[i] in keyed && candidates[i] !in chain { chain := chain + [candidates[i]]; }
    }
    assert candidates[..|candidates|] == candidates;
  }

  lemma {:induction false} WithoutMembers(names: seq<string>, name: string, n: string)
    ensures n in Without(names, name) <==> n in names && n != name
  {
    if names != [] {
      WithoutMembers(names[1..], name, n);
      assert names == [names[0]] + names[1..];
    }
  }

  /** `p` and `q` are different fallbacks and `p` occurs before any `q`. */
  predicate Precedes(order: seq<string>, primary: string, p: string, q: string) {
    && p != primary && q != primary && p != q
    && exists a :: 0 <= a < |order| && order[a] == p && q !in order[..a]
  }

  lemma {:induction false} WithoutKeepsOrder(names: seq<string>, name: string, p: string, q: string, a: nat)
    requires a < |names| && names[a] == p && q !in names[..a] && p != name && q != name && p != q
    ensures FirstIndex(Without(names, name), p) < FirstIndex(Without(names, name), q)
  {
    var rest := Without(names[1..], name);
    assert names[0] == name ==> Without(names, name) == rest;
    assert names[0] != name ==> Without(names, name)[0] == names[0] && Without(names, name)[1..] == rest;
    if names[0] != p {
      assert a > 0;
      assert names == [names[0]] + names[1..] && names[..a] == [names[0]] + names[1..][..a - 1];
      WithoutKeepsOrder(names[1..], name, p, q, a - 1);
    }
  }

  lemma {:induction false} FallbacksInOrder(
    chain: seq<string>, primary: string, order: seq<string>, keyed: set<string>, i: nat, j: nat)
    requires FirstOccurrences(chain, Candidates(primary, order), keyed) && i < |chain| && j < |chain|
    requires Precedes(order, primary, chain[i], chain[j])
    ensures i < j
  {
    hide Without;
    var a :| 0 <= a < |order| && order[a] == chain[i] && chain[j] !in order[..a];
    WithoutKeepsOrder(order, primary, chain[i], chain[j], a);
    AfterPrimary(primary, order, chain[i]);
    AfterPrimary(primary, order, chain[j]);
  }

  lemma {:induction false} AfterPrimary(primary: string, order: seq<string>, name: string)
    requires name != primary
    ensures FirstIndex(Candidates(primary, order), name) == 1 + FirstIndex(Without(order, primary), name)
  {
    assert Candidates(primary, order)[1..] == Without(order, primary);
  }

  /** The chain has no duplicates, holds exactly the keyed ones among the primary and the
      fallbacks, starts with the primary when that has a key, and has the fallbacks in the
      order in which the configured list first names them. */
  lemma {:induction false} ChainFacts(chain: seq<string>, primary: string, order: seq<string>, keyed: set<string>)
    requires FirstOccurrences(chain, Candidates(primary, order), keyed)
    ensures forall i, j :: 0 <= i < j < |chain| ==> chain[i] != chain[j]
    ensures forall n :: n in chain <==> n in keyed && (n == primary || n in order)
    ensures primary in keyed ==> chain != [] && chain[0] == primary
    ensures forall i, j :: 0 <= i < |chain| && 0 <= j < |chain| && Precedes(order, primary, chain[i], chain[j]) ==>
              i < j
  {
    forall i, j | 0 <= i < |chain| && 0 <= j < |chain| && Precedes(order, primary, chain[i], chain[j])
      ensures i < j
    {
      FallbacksInOrder(chain, primary, order, keyed, i, j);
    }
    forall n
      ensures n in Candidates(primary, order) <==> n == primary || n in order
    {
      WithoutMembers(order, primary, n);
    }
    if primary in keyed {
      assert primary in chain;
      var i :| 0 <= i < |chain| && chain[i] == primary;
      assert FirstIndex(Candidates(primary, order), primary) == 0;
    }
  }

  // ---------------------------------------------------------------- one rung

  /** A call after which no further attempt is made. When streaming, a call that dies after its
      first chunk is one of these. */
  predicate Decisive(call: Call, streaming: bool) {
    !call.reply.ending.Unavailable? || (streaming && call.reply.chunks != [])
  }

  /** The first decisive call from `i` on, or |calls|. */
  function FirstDecisive(calls: seq<Call>, streaming: bool, i: nat): nat
    requires i <= |calls|
    decreases |calls| - i
  {
    if i == |calls| || Decisive(calls[i], streaming) then i else FirstDecisive(calls, streaming, i + 1)
  }

  lemma {:induction false} FirstDecisiveFacts(calls: seq<Call>, streaming: bool, i: nat)
    requires i <= |calls|
    ensures var d := FirstDecisive(calls, streaming, i);
            && i <= d <= |calls|
            && (d < |calls| ==> Decisive(calls[d], streaming))
            && forall a :: i <= a < d ==> !Decisive(calls[a], streaming)
    decreases |calls| - i
  {
    if i < |calls| && !Decisive(calls[i], streaming) { FirstDecisiveFacts(calls, streaming, i + 1); }
  }

  predicate Usable(breakers: Breakers, rung: Rung) {
    rung.name in breakers && Admits(breakers[rung.name], rung.now) && !rung.quotaExceeded
  }

  predicate Tried(breakers: Breakers, rung: Rung, streaming: bool) {
    Usable(breakers, rung) && (streaming ==> rung.streams)
  }

  /** The rung is refused, or none of its calls is decisive. */
  predicate Exhausted(breakers: Breakers, rung: Rung, streaming: bool) {
    Tried(breakers, rung, streaming) ==> FirstDecisive(rung.calls, streaming, 0) == |rung.calls|
  }

  function AfterCall(breakers: Breakers, name: string, call: Call): Breakers {
    if name !in breakers then breakers
    else match call.reply.ending
      case Finished => breakers[name := After(breakers[name], Success)]
      case Unavailable(_) => breakers[name := After(breakers[name], Failure(call.at))]
      case VendorError(_) => breakers
  }

  function AfterCalls(breakers: Breakers, name: string, calls: seq<Call>, n: nat): Breakers
    requires n <= |calls|
  {
    if n == 0 then breakers else AfterCall(AfterCalls(breakers, name, calls, n - 1), name, calls[n - 1])
  }

  function AfterCheck(breakers: Breakers, rung: Rung): Breakers {
    if rung.name !in breakers then breakers
    else breakers[rung.name := After(breakers[rung.name], Attempt(rung.now))]
  }

  /** Calls made on a rung that is tried. */
  function CallsMade(calls: seq<Call>, streaming: bool): nat
    ensures CallsMade(calls, streaming) <= |calls|
  {
    FirstDecisiveFacts(calls, streaming, 0);
    Min(|calls|, FirstDecisive(calls, streaming, 0) + 1)
  }

  /** Calls made on a rung, none when it is refused. */
  function CallsOnRung(breakers: Breakers, rung: Rung, streaming: bool): nat {
    if Tried(breakers, rung, streaming) then CallsMade(rung.calls, streaming) else 0
  }

  function AfterRung(breakers: Breakers, rung: Rung, streaming: bool): Breakers {
    if !Tried(breakers, rung, streaming) then AfterCheck(breakers, rung)
    else AfterCalls(AfterCheck(breakers, rung), rung.name, rung.calls, CallsMade(rung.calls, streaming))
  }

  function Pow2(n: nat): real { if n == 0 then 1.0 else 2.0 * Pow2(n - 1) }

  /** Sleep before attempt `a`. */
  function Pause(a: nat): real { if a == 0 then 0.0 else 0.5 * Pow2(a - 1) }

  /** Sleep before the first `n` attempts. */
  function Backoff(n: nat): real { if n == 0 then 0.0 else Backoff(n - 1) + Pause(n - 1) }

  /** No pause before the first attempt, half a second before the second, and each later pause is
      twice the one before. */
  lemma {:induction false} PausesDouble(a: nat)
    ensures Pause(0) == 0.0 && Pause(1) == 0.5
    ensures a >= 1 ==> Pause(a + 1) == 2.0 * Pause(a)
  {
    assert Pow2(0) == 1.0;
  }

  lemma {:induction false} BackoffClosed(n: nat)
    ensures Backoff(n + 1) == 0.5 * (Pow2(n) - 1.0)
  {
    if n > 0 { BackoffClosed(n - 1); } else { assert Backoff(1) == Backoff(0) + Pause(0); }
  }

  /** Messages of the first `n` calls. */
  function CallErrors(name: string, calls: seq<Call>, n: nat): seq<string>
    requires n <= |calls|
  {
    if n == 0 then []
    else CallErrors(name, calls, n - 1)
         + (if calls[n - 1].reply.ending.Unavailable? then [name + ": " + calls[n - 1].reply.ending.message] else [])
  }

  function RungErrors(breakers: Breakers, rung: Rung, streaming: bool): seq<string> {
    if !Usable(breakers, rung) then [rung.name + ": circuit open"]
    else if streaming && !rung.streams then [rung.name + ": no stream support"]
    else CallErrors(rung.name, rung.calls, |rung.calls|)
  }

  // ---------------------------------------------------------------- the whole chain

  function BreakersAfter(breakers: Breakers, rungs: seq<Rung>, k: nat, streaming: bool): Breakers
    requires k <= |rungs|
  {
    if k == 0 then breakers
    else AfterRung(BreakersAfter(breakers, rungs, k - 1, streaming), rungs[k - 1], streaming)
  }

  /** Calls made on each of the first `k` rungs. */
  function CallCounts(breakers: Breakers, rungs: seq<Rung>, k: nat, streaming: bool): seq<nat>
    requires k <= |rungs|
  {
    if k == 0 then []
    else CallCounts(breakers, rungs, k - 1, streaming)
         + [CallsOnRung(BreakersAfter(breakers, rungs, k - 1, streaming), rungs[k - 1], streaming)]
  }

  /** Sleep for the given numbers of calls, rung by rung. */
  function Slept(counts: seq<nat>): real {
    if counts == [] then 0.0 else Slept(counts[..|counts| - 1]) + Backoff(Last(counts))
  }

  lemma {:induction false} NoCallsNoPause()
    ensures Backoff(0) == 0.0 && Slept([]) == 0.0
  {
  }

  lemma {:induction false} SleptAppend(counts: seq<nat>, count: nat)
    ensures Slept(counts + [count]) == Slept(counts) + Backoff(count)
  {
    assert (counts + [count])[..|counts|] == counts;
  }

  function ErrorsAfter(breakers: Breakers, rungs: seq<Rung>, k: nat, streaming: bool): seq<string>
    requires k <= |rungs|
  {
    if k == 0 then []
    else ErrorsAfter(breakers, rungs, k - 1, streaming)
         + RungErrors(BreakersAfter(breakers, rungs, k - 1, streaming), rungs[k - 1], streaming)
  }

  /** The first rung from `k` on that is not exhausted, or |rungs|. */
  function Winner(breakers: Breakers, rungs: seq<Rung>, streaming: bool, k: nat): nat
    requires k <= |rungs|
    decreases |rungs| - k
  {
    if k == |rungs| || !Exhausted(BreakersAfter(breakers, rungs, k, streaming), rungs[k], streaming) then k
    else Winner(breakers, rungs, streaming, k + 1)
  }

  /** How a request ends: answered, every rung failed, a stream died half way, or another
      exception escaped. */
  datatype End = Answered | AllFailed(errors: seq<string>) | Died(message: string) | Escaped(message: string)

  function EndOf(call: Call): End {
    match call.reply.ending
    case Finished => Answered
    case Unavailable(message) => Died(message)
    case VendorError(message) => Escaped(message)
  }

  /** What a caller gets of a call: the raw chunks when streaming, and the whole text at once,
      stripped, when not. */
  function ChunksOf(call: Call, streaming: bool): seq<string> {
    if streaming then call.reply.chunks
    else if call.reply.ending.Finished? then [Text.Strip(Flatten(call.reply.chunks))] else []
  }

  /** What the caller sees of the whole chain. */
  function ChainEnd(breakers: Breakers, rungs: seq<Rung>, streaming: bool): End {
    var w := Winner(breakers, rungs, streaming, 0);
    if w >= |rungs| then AllFailed(ErrorsAfter(breakers, rungs, |rungs|, streaming))
    else
      var d := FirstDecisive(rungs[w].calls, streaming, 0);
      if d < |rungs[w].calls| then EndOf(rungs[w].calls[d]) else Answered
  }

  function ChainChunks(breakers: Breakers, rungs: seq<Rung>, streaming: bool): seq<string> {
    var w := Winner(breakers, rungs, streaming, 0);
    if w >= |rungs| then []
    else
      var d := FirstDecisive(rungs[w].calls, streaming, 0);
      if d < |rungs[w].calls| then ChunksOf(rungs[w].calls[d], streaming) else []
  }

  /** Rungs consulted. */
  function Consulted(breakers: Breakers, rungs: seq<Rung>, streaming: bool): nat
    ensures Consulted(breakers, rungs, streaming) <= |rungs|
  {
    WinnerFacts(breakers, rungs, streaming, 0);
    Min(|rungs|, Winner(breakers, rungs, streaming, 0) + 1)
  }

  /** The first `k` rungs are exhausted, each in the state the ones before leave. */
  predicate AllExhausted(breakers: Breakers, rungs: seq<Rung>, k: nat, streaming: bool)
    requires k <= |rungs|
  {
    k == 0
    || (AllExhausted(breakers, rungs, k - 1, streaming)
        && Exhausted(BreakersAfter(breakers, rungs, k - 1, streaming), rungs[k - 1], streaming))
  }

  lemma {:induction false} WinnerFacts(breakers: Breakers, rungs: seq<Rung>, streaming: bool, k: nat)
    requires k <= |rungs| && AllExhausted(breakers, rungs, k, streaming)
    ensures var w := Winner(breakers, rungs, streaming, k);
            && k <= w <= |rungs|
            && (w < |rungs| ==>
                  !Exhausted(BreakersAfter(breakers, rungs, w, streaming), rungs[w], streaming))
            && AllExhausted(breakers, rungs, w, streaming)
    decreases |rungs| - k
  {
    if k < |rungs| && Exhausted(BreakersAfter(breakers, rungs, k, streaming), rungs[k], streaming) {
      WinnerFacts(breakers, rungs, streaming, k + 1);
    }
  }

  class ProviderManager {
    var breakers: Breakers
    var slept: real

    constructor (initial: Breakers)
      ensures breakers == initial && slept == 0.0
    {
      breakers, slept := initial, 0.0;
    }

    /** Checks circuit and quota; the check itself may turn the breaker HALF_OPEN. */
    method CanUse(rung: Rung) returns (usable: bool)
      modifies this`breakers
      ensures usable == Usable(old(breakers), rung)
      ensures breakers == AfterCheck(old(breakers), rung)
    {
      if rung.name !in breakers { return false; }
      usable := Admits(breakers[rung.name], rung.now);
      breakers := breakers[rung.name := After(breakers[rung.name], Attempt(rung.now))];
      if !usable { return false; }
      return !rung.quotaExceeded;
    }

    method Record(name: string, call: Call)
      modifies this`breakers
      ensures breakers == AfterCall(old(breakers), name, call)
    {
      if name in breakers {
        if call.reply.ending.Finished? {
          breakers := breakers[name := After(breakers[name], Success)];
        } else if call.reply.ending.Unavailable? {
          breakers := breakers[name := After(breakers[name], Failure(call.at))];
        }
      }
    }

    /** The attempts on one rung without streaming. */
    method CompleteRung(rung: Rung, before: seq<string>)
      returns (decided: bool, chunks: seq<string>, end: End, errors: seq<string>)
      modifies this
      ensures var d := FirstDecisive(rung.calls, false, 0);
              && (decided <==> d < |rung.calls|)
              && (decided ==> chunks == ChunksOf(rung.calls[d], false) && end == EndOf(rung.calls[d]))
              && (!decided ==> errors == before + CallErrors(rung.name, rung.calls, |rung.calls|))
      ensures breakers == AfterCalls(old(breakers), rung.name, rung.calls, CallsMade(rung.calls, false))
      ensures slept == old(slept) + Backoff(CallsMade(rung.calls, false))
    {
      decided, chunks, end, errors := false, [], Answered, before;
      for attempt := 0 to |rung.calls|
        invariant FirstDecisive(rung.calls, false, 0) == FirstDecisive(rung.calls, false, attempt)
        invariant !decided
        invariant errors == before + CallErrors(rung.name, rung.calls, attempt)
        invariant breakers == AfterCalls(old(breakers), rung.name, rung.calls, attempt)
        invariant slept == old(slept) + Backoff(attempt)
      {
        if attempt > 0 { slept := slept + 0.5 * Pow2(attempt - 1); }
        var call := rung.calls[attempt];
        Record(rung.name, call);
        if call.reply.ending.Finished? {
          return true, [Text.Strip(Flatten(call.reply.chunks))], Answered, errors;
        }
        if call.reply.ending.VendorError? { return true, [], Escaped(call.reply.ending.message), errors; }
        errors := errors + [rung.name + ": " + call.reply.ending.message];
      }
    }

    /** The attempts on one rung when streaming: chunks reach the caller as they come. */
    method StreamRung(rung: Rung, before: seq<string>)
      returns (decided: bool, tokens: seq<string>, end: End, errors: seq<string>)
      modifies this
      ensures var d := FirstDecisive(rung.calls, true, 0);
              && (decided <==> d < |rung.calls|)
              && tokens == (if decided then ChunksOf(rung.calls[d], true) else [])
              && (decided ==> end == EndOf(rung.calls[d]))
              && (!decided ==> errors == before + CallErrors(rung.name, rung.calls, |rung.calls|))
      ensures breakers == AfterCalls(old(breakers), rung.name, rung.calls, CallsMade(rung.calls, true))
      ensures slept == old(slept) + Backoff(CallsMade(rung.calls, true))
    {
      decided, tokens, end, errors := false, [], Answered, before;
      for attempt := 0 to |rung.calls|
        invariant FirstDecisive(rung.calls, true, 0) == FirstDecisive(rung.calls, true, attempt)
        invariant !decided && tokens == []
        invariant errors == before + CallErrors(rung.name, rung.calls, attempt)
        invariant breakers == AfterCalls(old(breakers), rung.name, rung.calls, attempt)
        invariant slept == old(slept) + Backoff(attempt)
      {
        if attempt > 0 { slept := slept + 0.5 * Pow2(attempt - 1); }
        var call := rung.calls[attempt];
        var started := false;
        for i := 0 to |call.reply.chunks|
          invariant tokens == call.reply.chunks[..i] && (started <==> i > 0)
        {
          started := true;
          tokens := tokens + [call.reply.chunks[i]];
        }
        Record(rung.name, call);
        if call.reply.ending.Finished? { return true, tokens, Answered, errors; }
        if call.reply.ending.VendorError? { return true, tokens, Escaped(call.reply.ending.message), errors; }
        if started { return true, tokens, Died(call.reply.ending.message), errors; }
        errors := errors + [rung.name + ": " + call.reply.ending.message];
      }
    }

    /** Tries each provider in order; the answer is the text of the first success. */
    method Complete(rungs: seq<Rung>) returns (text: string, end: End)
      modifies this
      ensures end == ChainEnd(old(breakers), rungs, false)
      ensures text == Flatten(ChainChunks(old(breakers), rungs, false))
      ensures breakers == BreakersAfter(old(breakers), rungs, Consulted(old(breakers), rungs, false), false)
      ensures slept == old(slept)
                       + Slept(CallCounts(old(breakers), rungs, Consulted(old(breakers), rungs, false), false))
    {
      hide CallErrors, Backoff, CallsMade, AfterCalls, ChunksOf, EndOf, Pow2, After, Admits, Decisive, Slept;
      var errors := [];
      NoCallsNoPause();
      for r := 0 to |rungs|
        invariant Winner(old(breakers), rungs, false, 0) == Winner(old(breakers), rungs, false, r)
        invariant breakers == BreakersAfter(old(breakers), rungs, r, false)
        invariant slept == old(slept) + Slept(CallCounts(old(breakers), rungs, r, false))
        invariant errors == ErrorsAfter(old(breakers), rungs, r, false)
      {
        SleptAppend(CallCounts(old(breakers), rungs, r, false), CallsOnRung(breakers, rungs[r], false));
        var usable := CanUse(rungs[r]);
        if !usable {
          errors := errors + [rungs[r].name + ": circuit open"];
        } else {
          var decided, chunks, rungEnd, all := CompleteRung(rungs[r], errors);
          if decided { return Flatten(chunks), rungEnd; }
          FirstDecisiveFacts(rungs[r].calls, false, 0);
          errors := all;
        }
      }
      return [], AllFailed(errors);
    }

    /** Streams through the chain; the tokens are what the caller has received. */
    method Stream(rungs: seq<Rung>) returns (tokens: seq<string>, end: End)
      modifies this
      ensures end == ChainEnd(old(breakers), rungs, true)
      ensures tokens == ChainChunks(old(breakers), rungs, true)
      ensures breakers == BreakersAfter(old(breakers), rungs, Consulted(old(breakers), rungs, true), true)
      ensures slept == old(slept)
                       + Slept(CallCounts(old(breakers), rungs, Consulted(old(breakers), rungs, true), true))
    {
      hide CallErrors, Backoff, CallsMade, AfterCalls, ChunksOf, EndOf, Pow2, After, Admits, Decisive, Slept;
      var errors := [];
      NoCallsNoPause();
      for r := 0 to |rungs|
        invariant Winner(old(breakers), rungs, true, 0) == Winner(old(breakers), rungs, true, r)
        invariant breakers == BreakersAfter(old(breakers), rungs, r, true)
        invariant slept == old(slept) + Slept(CallCounts(old(breakers), rungs, r, true))
        invariant errors == ErrorsAfter(old(breakers), rungs, r, true)
      {
        SleptAppend(CallCounts(old(breakers), rungs, r, true), CallsOnRung(breakers, rungs[r], true));
        var usable := CanUse(rungs[r]);
        if !usable {
          errors := errors + [rungs[r].name + ": circuit open"];
        } else if !rungs[r].streams {
          errors := errors + [rungs[r].name + ": no stream support"];
        } else {
          var decided, chunks, rungEnd, all := StreamRung(rungs[r], errors);
          if decided {
            assert Consulted(old(breakers), rungs, true) == r + 1;
            return chunks, rungEnd;
          }
          FirstDecisiveFacts(rungs[r].calls, true, 0);
          errors := all;
        }
      }
      return [], AllFailed(errors);
    }
  }

  // ---------------------------------------------------------------- what the chain guarantees

  predicate DistinctNames(rungs: seq<Rung>) {
    forall i, j :: 0 <= i < j < |rungs| ==> rungs[i].name != rungs[j].name
  }

  predicate SameAt(a: Breakers, b: Breakers, name: string) {
    (name in a <==> name in b) && (name in a ==> a[name] == b[name])
  }

  lemma {:induction false} CallsTouchOne(breakers: Breakers, name: string, calls: seq<Call>, n: nat, other: string)
    requires n <= |calls| && other != name
    ensures SameAt(AfterCalls(breakers, name, calls, n), breakers, other)
  {
    if n > 0 { CallsTouchOne(breakers, name, calls, n - 1, other); }
  }

  /** Until its turn comes, a rung's breaker is what it was before the request. */
  lemma {:induction false} UntouchedByOthers(breakers: Breakers, rungs: seq<Rung>, streaming: bool, k: nat, r: nat)
    requires DistinctNames(rungs) && k <= r < |rungs|
    ensures SameAt(BreakersAfter(breakers, rungs, k, streaming), breakers, rungs[r].name)
  {
    if k > 0 {
      UntouchedByOthers(breakers, rungs, streaming, k - 1, r);
      var before := BreakersAfter(breakers, rungs, k - 1, streaming);
      var rung := rungs[k - 1];
      assert rung.name != rungs[r].name;
      CallsTouchOne(AfterCheck(before, rung), rung.name, rung.calls, CallsMade(rung.calls, streaming), rungs[r].name);
    }
  }

  /** The rung is refused, or all its calls are made and none is decisive. */
  predicate GivenUp(breakers: Breakers, rung: Rung, streaming: bool) {
    Tried(breakers, rung, streaming) ==> forall a :: 0 <= a < |rung.calls| ==> !Decisive(rung.calls[a], streaming)
  }

  lemma {:induction false} GivenUpIsExhausted(breakers: Breakers, rungs: seq<Rung>, streaming: bool, r: nat)
    requires DistinctNames(rungs) && r < |rungs|
    ensures Tried(BreakersAfter(breakers, rungs, r, streaming), rungs[r], streaming)
            <==> Tried(breakers, rungs[r], streaming)
    ensures Exhausted(BreakersAfter(breakers, rungs, r, streaming), rungs[r], streaming)
            <==> GivenUp(breakers, rungs[r], streaming)
  {
    UntouchedByOthers(breakers, rungs, streaming, r, r);
    FirstDecisiveFacts(rungs[r].calls, streaming, 0);
  }

  lemma {:induction false} AllGivenUp(breakers: Breakers, rungs: seq<Rung>, streaming: bool, k: nat)
    requires DistinctNames(rungs) && k <= |rungs| && AllExhausted(breakers, rungs, k, streaming)
    ensures forall r :: 0 <= r < k ==> GivenUp(breakers, rungs[r], streaming)
  {
    if k > 0 {
      AllGivenUp(breakers, rungs, streaming, k - 1);
      GivenUpIsExhausted(breakers, rungs, streaming, k - 1);
    }
  }

  /** The outcome is that of the first decisive call in chain-then-attempt order; the request
      fails exactly when every rung is refused or spends all its attempts. */
  lemma {:induction false} FirstDecisiveCall(breakers: Breakers, rungs: seq<Rung>, retries: nat, streaming: bool)
    returns (w: nat, d: nat)
    requires Scripted(rungs, retries) && DistinctNames(rungs)
    ensures w <= |rungs| && forall r :: 0 <= r < w ==> GivenUp(breakers, rungs[r], streaming)
    ensures ChainEnd(breakers, rungs, streaming).AllFailed? <==> w == |rungs|
    ensures w == |rungs| ==> ChainChunks(breakers, rungs, streaming) == []
    ensures w < |rungs| ==>
              && Tried(breakers, rungs[w], streaming) && d <= retries
              && (forall a :: 0 <= a < d ==> !Decisive(rungs[w].calls[a], streaming))
              && Decisive(rungs[w].calls[d], streaming)
              && ChainEnd(breakers, rungs, streaming) == EndOf(rungs[w].calls[d])
              && ChainChunks(breakers, rungs, streaming) == ChunksOf(rungs[w].calls[d], streaming)
    ensures w == Winner(breakers, rungs, streaming, 0)
    ensures w < |rungs| ==> d == FirstDecisive(rungs[w].calls, streaming, 0)
  {
    w, d := Winner(breakers, rungs, streaming, 0), 0;
    WinnerFacts(breakers, rungs, streaming, 0);
    AllGivenUp(breakers, rungs, streaming, w);
    if w < |rungs| {
      GivenUpIsExhausted(breakers, rungs, streaming, w);
      FirstDecisiveFacts(rungs[w].calls, streaming, 0);
      d := FirstDecisive(rungs[w].calls, streaming, 0);
    }
  }

  /** Without streaming, an answer is the text of the first success: all tried calls before it
      ended unavailable. */
  lemma {:induction false} CompleteIsFirstSuccess(breakers: Breakers, rungs: seq<Rung>, retries: nat)
    returns (w: nat, d: nat)
    requires Scripted(rungs, retries) && DistinctNames(rungs)
    requires ChainEnd(breakers, rungs, false) == Answered
    ensures w < |rungs| && d <= retries && Tried(breakers, rungs[w], false)
    ensures rungs[w].calls[d].reply.ending == Finished
    ensures ChainChunks(breakers, rungs, false) == [Text.Strip(Flatten(rungs[w].calls[d].reply.chunks))]
    ensures forall r, a :: 0 <= r < w && 0 <= a <= retries && Tried(breakers, rungs[r], false) ==>
              rungs[r].calls[a].reply.ending.Unavailable?
    ensures forall a :: 0 <= a < d ==> rungs[w].calls[a].reply.ending.Unavailable?
  {
    w, d := FirstDecisiveCall(breakers, rungs, retries, false);
    forall r, a | 0 <= r < w && 0 <= a <= retries && Tried(breakers, rungs[r], false)
      ensures rungs[r].calls[a].reply.ending.Unavailable?
    {
      assert GivenUp(breakers, rungs[r], false);
      assert !Decisive(rungs[r].calls[a], false);
    }
    forall a | 0 <= a < d
      ensures rungs[w].calls[a].reply.ending.Unavailable?
    {
      assert !Decisive(rungs[w].calls[a], false);
    }
  }

  // ---------------------------------------------------------------- what a failed request reports

  lemma {:induction false} CallErrorAt(name: string, calls: seq<Call>, n: nat, a: nat)
    requires a < n <= |calls| && forall i :: 0 <= i < n ==> calls[i].reply.ending.Unavailable?
    ensures |CallErrors(name, calls, n)| == n
    ensures CallErrors(name, calls, n)[a] == name + ": " + calls[a].reply.ending.message
  {
    if a < n - 1 {
      CallErrorAt(name, calls, n - 1, a);
    } else if n > 1 {
      CallErrorAt(name, calls, n - 1, 0);
    }
  }

  /** What a rung that did not answer is reported with: why it was passed over, or the message of
      every attempt in order. */
  predicate Reports(breakers: Breakers, rung: Rung, streaming: bool, messages: seq<string>) {
    if !Usable(breakers, rung) then messages == [rung.name + ": circuit open"]
    else if streaming && !rung.streams then messages == [rung.name + ": no stream support"]
    else
      && |messages| == |rung.calls|
      && forall a :: 0 <= a < |rung.calls| ==>
           && rung.calls[a].reply.ending.Unavailable?
           && messages[a] == rung.name + ": " + rung.calls[a].reply.ending.message
  }

  lemma {:induction false} RungReports(breakers: Breakers, rungs: seq<Rung>, streaming: bool, r: nat)
    requires DistinctNames(rungs) && r < |rungs| && GivenUp(breakers, rungs[r], streaming)
    ensures Reports(breakers, rungs[r], streaming,
                    RungErrors(BreakersAfter(breakers, rungs, r, streaming), rungs[r], streaming))
  {
    UntouchedByOthers(breakers, rungs, streaming, r, r);
    var rung := rungs[r];
    if Tried(breakers, rung, streaming) {
      forall a | 0 <= a < |rung.calls|
        ensures rung.calls[a].reply.ending.Unavailable?
      {
        assert !Decisive(rung.calls[a], streaming);
      }
      forall a | 0 <= a < |rung.calls|
        ensures |CallErrors(rung.name, rung.calls, |rung.calls|)| == |rung.calls|
        ensures CallErrors(rung.name, rung.calls, |rung.calls|)[a]
                == rung.name + ": " + rung.calls[a].reply.ending.message
      {
        CallErrorAt(rung.name, rung.calls, |rung.calls|, a);
      }
    }
  }

  lemma {:induction false} ErrorsByRung(breakers: Breakers, rungs: seq<Rung>, streaming: bool, k: nat)
    returns (parts: seq<seq<string>>)
    requires DistinctNames(rungs) && k <= |rungs| && AllExhausted(breakers, rungs, k, streaming)
    ensures |parts| == k && ErrorsAfter(breakers, rungs, k, streaming) == Flatten(parts)
    ensures forall r :: 0 <= r < k ==> Reports(breakers, rungs[r], streaming, parts[r])
  {
    hide Reports, RungErrors, BreakersAfter;
    parts := [];
    if k > 0 {
      parts := ErrorsByRung(breakers, rungs, streaming, k - 1);
      AllGivenUp(breakers, rungs, streaming, k);
      RungReports(breakers, rungs, streaming, k - 1);
      var messages := RungErrors(BreakersAfter(breakers, rungs, k - 1, streaming), rungs[k - 1], streaming);
      FlattenConcat(parts, [messages]);
      FlattenSingle(messages);
      parts := parts + [messages];
    }
  }

  /** A request that fails reports every rung in chain order: why it was passed over, or the
      message of each of its attempts. */
  lemma {:induction false} FailureReport(breakers: Breakers, rungs: seq<Rung>, streaming: bool)
    returns (parts: seq<seq<string>>)
    requires DistinctNames(rungs) && ChainEnd(breakers, rungs, streaming).AllFailed?
    ensures |parts| == |rungs| && ChainEnd(breakers, rungs, streaming).errors == Flatten(parts)
    ensures forall r :: 0 <= r < |rungs| ==> Reports(breakers, rungs[r], streaming, parts[r])
  {
    hide Reports, ErrorsAfter;
    WinnerFacts(breakers, rungs, streaming, 0);
    parts := ErrorsByRung(breakers, rungs, streaming, |rungs|);
  }

  // ---------------------------------------------------------------- total backoff

  /** Which of the first `k` rungs are tried. */
  function TriedFlags(breakers: Breakers, rungs: seq<Rung>, k: nat, streaming: bool): seq<bool>
    requires k <= |rungs|
  {
    if k == 0 then []
    else TriedFlags(breakers, rungs, k - 1, streaming) + [Tried(breakers, rungs[k - 1], streaming)]
  }

  function CountTrue(flags: seq<bool>): nat {
    if flags == [] then 0 else CountTrue(flags[..|flags| - 1]) + (if Last(flags) then 1 else 0)
  }

  /** Rungs among the first `k` that are tried. */
  function TriedCount(breakers: Breakers, rungs: seq<Rung>, k: nat, streaming: bool): nat
    requires k <= |rungs|
  {
    CountTrue(TriedFlags(breakers, rungs, k, streaming))
  }

  lemma {:induction false} CountOnRung(
    breakers: Breakers, rungs: seq<Rung>, retries: nat, streaming: bool, r: nat)
    requires Scripted(rungs, retries) && DistinctNames(rungs) && r < |rungs|
    ensures var count := CallsOnRung(BreakersAfter(breakers, rungs, r, streaming), rungs[r], streaming);
            var d := FirstDecisive(rungs[r].calls, streaming, 0);
            count == if !Tried(breakers, rungs[r], streaming) then 0 else if d > retries then retries + 1 else d + 1
  {
    GivenUpIsExhausted(breakers, rungs, streaming, r);
    FirstDecisiveFacts(rungs[r].calls, streaming, 0);
  }

  /** Calls made when the rungs flagged are tried in full. */
  function FullCounts(flags: seq<bool>, calls: nat): seq<nat> {
    if flags == [] then [] else FullCounts(flags[..|flags| - 1], calls) + [if Last(flags) then calls else 0]
  }

  lemma {:induction false} FullCountsAppend(flags: seq<bool>, flag: bool, calls: nat)
    ensures FullCounts(flags + [flag], calls) == FullCounts(flags, calls) + [if flag then calls else 0]
  {
    assert (flags + [flag])[..|flags|] == flags;
  }

  lemma {:induction false} CountsOnExhausted(
    breakers: Breakers, rungs: seq<Rung>, retries: nat, streaming: bool, k: nat)
    requires Scripted(rungs, retries) && DistinctNames(rungs) && k <= |rungs|
    requires AllExhausted(breakers, rungs, k, streaming)
    ensures CallCounts(breakers, rungs, k, streaming)
            == FullCounts(TriedFlags(breakers, rungs, k, streaming), retries + 1)
  {
    if k > 0 {
      var before := TriedFlags(breakers, rungs, k - 1, streaming);
      FullCountsAppend(before, Tried(breakers, rungs[k - 1], streaming), retries + 1);
      CountsOnExhausted(breakers, rungs, retries, streaming, k - 1);
      CountOnRung(breakers, rungs, retries, streaming, k - 1);
      GivenUpIsExhausted(breakers, rungs, streaming, k - 1);
    }
  }

  lemma {:induction false} SleptOnFull(flags: seq<bool>, calls: nat)
    ensures Slept(FullCounts(flags, calls)) == Repeated(CountTrue(flags), Backoff(calls))
  {
    if flags != [] {
      hide Slept, Backoff, Repeated;
      var front := flags[..|flags| - 1];
      SleptOnFull(front, calls);
      SleptAppend(FullCounts(front, calls), if Last(flags) then calls else 0);
      NoCallsNoPause();
      RepeatedOnceMore(CountTrue(front), Backoff(calls));
    }
  }

  lemma {:induction false} RepeatedOnceMore(n: nat, pause: real)
    ensures Repeated(n + 1, pause) == Repeated(n, pause) + pause
  {
  }

  function Repeated(n: nat, pause: real): real {
    if n == 0 then 0.0 else Repeated(n - 1, pause) + pause
  }

  lemma {:induction false} RepeatedIsProduct(n: nat, pause: real)
    ensures Repeated(n, pause) == n as real * pause
  {
    if n > 0 {
      RepeatedIsProduct(n - 1, pause);
      var m := (n - 1) as real;
      assert n as real == m + 1.0;
      assert (m + 1.0) * pause == m * pause + 1.0 * pause;
    }
  }

  lemma {:induction false} SleptUpToWinner(breakers: Breakers, rungs: seq<Rung>, retries: nat, streaming: bool)
    requires Scripted(rungs, retries) && DistinctNames(rungs)
    ensures var w := Winner(breakers, rungs, streaming, 0);
            && w <= |rungs|
            && Slept(CallCounts(breakers, rungs, w, streaming))
               == Repeated(TriedCount(breakers, rungs, w, streaming), 0.5 * (Pow2(retries) - 1.0))
  {
    hide CallCounts, Slept, Pow2, Tried, BreakersAfter, Winner, FullCounts, TriedFlags, CountTrue, Repeated;
    WinnerFacts(breakers, rungs, streaming, 0);
    var w := Winner(breakers, rungs, streaming, 0);
    CountsOnExhausted(breakers, rungs, retries, streaming, w);
    SleptOnFull(TriedFlags(breakers, rungs, w, streaming), retries + 1);
    BackoffClosed(retries);
  }

  lemma {:induction false} SleptOnWinner(breakers: Breakers, rungs: seq<Rung>, retries: nat, streaming: bool)
    requires Scripted(rungs, retries) && DistinctNames(rungs)
    ensures var w := Winner(breakers, rungs, streaming, 0);
            && w <= |rungs|
            && Slept(CallCounts(breakers, rungs, Consulted(breakers, rungs, streaming), streaming))
               == Slept(CallCounts(breakers, rungs, w, streaming))
                  + (if w == |rungs| then 0.0
                     else 0.5 * (Pow2(FirstDecisive(rungs[w].calls, streaming, 0)) - 1.0))
  {
    hide Slept, Pow2, Backoff, Tried, BreakersAfter, AfterRung;
    var w, d := FirstDecisiveCall(breakers, rungs, retries, streaming);
    if w < |rungs| {
      CountOnRung(breakers, rungs, retries, streaming, w);
      SleptAppend(CallCounts(breakers, rungs, w, streaming), d + 1);
      BackoffClosed(d);
    }
  }

  /** A request sleeps 0.5 * (2^retries - 1) seconds once per exhausted rung it tried, and
      0.5 * (2^d - 1) more when attempt `d` of the next rung decides. */
  lemma {:induction false} TotalBackoff(breakers: Breakers, rungs: seq<Rung>, retries: nat, streaming: bool)
    requires Scripted(rungs, retries) && DistinctNames(rungs)
    ensures var w := Winner(breakers, rungs, streaming, 0);
            && w <= |rungs|
            && Slept(CallCounts(breakers, rungs, Consulted(breakers, rungs, streaming), streaming))
               == TriedCount(breakers, rungs, w, streaming) as real * (0.5 * (Pow2(retries) - 1.0))
                  + (if w == |rungs| then 0.0
                     else 0.5 * (Pow2(FirstDecisive(rungs[w].calls, streaming, 0)) - 1.0))
  {
    hide Slept, Pow2, CallCounts, Repeated;
    SleptUpToWinner(breakers, rungs, retries, streaming);
    SleptOnWinner(breakers, rungs, retries, streaming);
    var w := Winner(breakers, rungs, streaming, 0);
    RepeatedIsProduct(TriedCount(breakers, rungs, w, streaming), 0.5 * (Pow2(retries) - 1.0));
  }

  // ---------------------------------------------------------------- streaming and completing

  predicate AllStream(rungs: seq<Rung>) {
    forall r :: 0 <= r < |rungs| ==> rungs[r].streams
  }

  /** As long as no stream has died half way, streaming and completing make the same calls. */
  lemma {:induction false} SameDecision(calls: seq<Call>, i: nat)
    requires i <= |calls|
    requires var d := FirstDecisive(calls, true, i); d < |calls| ==> !calls[d].reply.ending.Unavailable?
    ensures FirstDecisive(calls, false, i) == FirstDecisive(calls, true, i)
    decreases |calls| - i
  {
    if i < |calls| && !Decisive(calls[i], true) { SameDecision(calls, i + 1); }
  }

  lemma {:induction false} SameRung(before: Breakers, rung: Rung)
    requires rung.streams && Exhausted(before, rung, true)
    ensures Exhausted(before, rung, false) && Tried(before, rung, false) == Tried(before, rung, true)
    ensures AfterRung(before, rung, false) == AfterRung(before, rung, true)
    ensures CallsOnRung(before, rung, false) == CallsOnRung(before, rung, true)
    ensures RungErrors(before, rung, false) == RungErrors(before, rung, true)
  {
    if Tried(before, rung, true) { SameDecision(rung.calls, 0); }
  }

  lemma {:induction false} SameBeforeWinner(breakers: Breakers, rungs: seq<Rung>, k: nat)
    requires AllStream(rungs) && k <= |rungs|
    requires AllExhausted(breakers, rungs, k, true)
    ensures BreakersAfter(breakers, rungs, k, false) == BreakersAfter(breakers, rungs, k, true)
    ensures CallCounts(breakers, rungs, k, false) == CallCounts(breakers, rungs, k, true)
    ensures ErrorsAfter(breakers, rungs, k, false) == ErrorsAfter(breakers, rungs, k, true)
    ensures Winner(breakers, rungs, false, 0) == Winner(breakers, rungs, false, k)
  {
    if k > 0 {
      SameBeforeWinner(breakers, rungs, k - 1);
      SameRung(BreakersAfter(breakers, rungs, k - 1, true), rungs[k - 1]);
    }
  }

  lemma {:induction false} SameWinningRung(before: Breakers, rung: Rung)
    requires rung.streams && !Exhausted(before, rung, true)
    requires var d := FirstDecisive(rung.calls, true, 0); d < |rung.calls| && !rung.calls[d].reply.ending.Unavailable?
    ensures !Exhausted(before, rung, false) && Tried(before, rung, false) == Tried(before, rung, true)
    ensures FirstDecisive(rung.calls, false, 0) == FirstDecisive(rung.calls, true, 0)
    ensures CallsOnRung(before, rung, false) == CallsOnRung(before, rung, true)
    ensures AfterRung(before, rung, false) == AfterRung(before, rung, true)
  {
    SameDecision(rung.calls, 0);
  }

  lemma {:induction false} WinningCall(breakers: Breakers, rungs: seq<Rung>, streaming: bool)
    requires Winner(breakers, rungs, streaming, 0) < |rungs|
    ensures var w := Winner(breakers, rungs, streaming, 0);
            var d := FirstDecisive(rungs[w].calls, streaming, 0);
            && d < |rungs[w].calls|
            && ChainEnd(breakers, rungs, streaming) == EndOf(rungs[w].calls[d])
            && ChainChunks(breakers, rungs, streaming) == ChunksOf(rungs[w].calls[d], streaming)
  {
    WinnerFacts(breakers, rungs, streaming, 0);
    FirstDecisiveFacts(rungs[Winner(breakers, rungs, streaming, 0)].calls, streaming, 0);
  }

  /** Unless a stream dies after its first token, streaming ends as completing does, makes the
      same calls and sleeps, and its tokens join to the same text up to whitespace around it. */
  lemma {:induction false} StreamAgreesWithComplete(breakers: Breakers, rungs: seq<Rung>)
    requires AllStream(rungs) && !ChainEnd(breakers, rungs, true).Died?
    ensures ChainEnd(breakers, rungs, false) == ChainEnd(breakers, rungs, true)
    ensures ChainEnd(breakers, rungs, true) == Answered ==>
              ChainChunks(breakers, rungs, false) == [Text.Strip(Flatten(ChainChunks(breakers, rungs, true)))]
    ensures Consulted(breakers, rungs, false) == Consulted(breakers, rungs, true)
    ensures var k := Consulted(breakers, rungs, true);
            && BreakersAfter(breakers, rungs, k, false) == BreakersAfter(breakers, rungs, k, true)
            && CallCounts(breakers, rungs, k, false) == CallCounts(breakers, rungs, k, true)
  {
    hide AfterCalls, Slept, CallErrors, AfterCheck, Usable, Decisive;
    WinnerFacts(breakers, rungs, true, 0);
    var w := Winner(breakers, rungs, true, 0);
    SameBeforeWinner(breakers, rungs, w);
    if w < |rungs| {
      WinningCall(breakers, rungs, true);
      SameWinningRung(BreakersAfter(breakers, rungs, w, true), rungs[w]);
      WinningCall(breakers, rungs, false);
    }
  }

  // ---------------------------------------------------------------- requests in a row

  /** Python's `"; ".join(errors)`. */
  function Joined(errors: seq<string>): string {
    if errors == [] then ""
    else if |errors| == 1 then errors[0]
    else errors[0] + "; " + Joined(errors[1..])
  }

  lemma {:induction false} JoinedSpelled(errors: seq<string>)
    requires errors != []
    ensures Joined(errors) + "; " == Flatten(seq(|errors|, i requires 0 <= i < |errors| => errors[i] + "; "))
  {
    var pieces := seq(|errors|, i requires 0 <= i < |errors| => errors[i] + "; ");
    if |errors| == 1 {
      assert pieces == [errors[0] + "; "];
      FlattenSingle(errors[0] + "; ");
    } else {
      JoinedSpelled(errors[1..]);
      assert pieces[1..] == seq(|errors[1..]|, i requires 0 <= i < |errors[1..]| => errors[1..][i] + "; ");
    }
  }

  /** What a request through the chain yields its caller. */
  function ChainReply(breakers: Breakers, rungs: seq<Rung>, streaming: bool): Reply {
    Reply(
      ChainChunks(breakers, rungs, streaming),
      match ChainEnd(breakers, rungs, streaming)
      case Answered => Finished
      case AllFailed(errors) => Unavailable(if Joined(errors) == "" then "no providers configured" else Joined(errors))
      case Died(message) => Unavailable(message)
      case Escaped(message) => VendorError(message))
  }

  /** The reply of a request is that of its first decisive call, raw when streaming and stripped when
      not, with the same end; without one it is unavailable with all messages joined. */
  lemma {:induction false} ReplyOfDecisiveCall(breakers: Breakers, rungs: seq<Rung>, retries: nat, streaming: bool)
    returns (w: nat, d: nat)
    requires Scripted(rungs, retries) && DistinctNames(rungs)
    ensures w <= |rungs| && forall r :: 0 <= r < w ==> GivenUp(breakers, rungs[r], streaming)
    ensures w < |rungs| ==>
              && Tried(breakers, rungs[w], streaming) && d <= retries && Decisive(rungs[w].calls[d], streaming)
              && (forall a :: 0 <= a < d ==> !Decisive(rungs[w].calls[a], streaming))
    ensures w < |rungs| ==>
              var reply := rungs[w].calls[d].reply;
              && ChainReply(breakers, rungs, streaming).ending == reply.ending
              && (streaming ==> ChainReply(breakers, rungs, streaming).chunks == reply.chunks)
              && (!streaming && reply.ending.Finished? ==>
                    ChainReply(breakers, rungs, streaming).chunks == [Text.Strip(Flatten(reply.chunks))])
    ensures w == |rungs| ==>
              && ChainEnd(breakers, rungs, streaming).AllFailed?
              && var errors := ChainEnd(breakers, rungs, streaming).errors;
                 ChainReply(breakers, rungs, streaming)
                 == Reply([], Unavailable(if Joined(errors) == "" then "no providers configured" else Joined(errors)))
  {
    hide ChainEnd, ChainChunks, Decisive, GivenUp, Tried, Joined;
    w, d := FirstDecisiveCall(breakers, rungs, retries, streaming);
  }

  /** The breakers after `n` requests, each through the chain as it is at its time. */
  function BreakersAt(breakers: Breakers, requests: seq<seq<Rung>>, n: nat, streaming: bool): Breakers
    requires n <= |requests|
  {
    if n == 0 then breakers
    else
      var before := BreakersAt(breakers, requests, n - 1, streaming);
      BreakersAfter(before, requests[n - 1], Consulted(before, requests[n - 1], streaming), streaming)
  }

  function ReplyAt(breakers: Breakers, requests: seq<seq<Rung>>, i: nat, streaming: bool): Reply
    requires i < |requests|
  {
    ChainReply(BreakersAt(breakers, requests, i, streaming), requests[i], streaming)
  }

  function Replies(breakers: Breakers, requests: seq<seq<Rung>>, streaming: bool): (replies: seq<Reply>)
    ensures |replies| == |requests|
  {
    seq(|requests|, i requires 0 <= i < |requests| => ReplyAt(breakers, requests, i, streaming))
  }

  predicate DiesAt(breakers: Breakers, requests: seq<seq<Rung>>, i: nat)
    requires i < |requests|
  {
    ChainEnd(BreakersAt(breakers, requests, i, true), requests[i], true).Died?
  }

  /** Up to the first stream that dies half way, a caller that streams and one that completes
      find the same breakers, and get the same ends and, with a finished answer, the same text up
      to whitespace around it. */
  lemma {:induction false} SameReplies(breakers: Breakers, requests: seq<seq<Rung>>, n: nat)
    requires n <= |requests| && forall i :: 0 <= i < n ==> AllStream(requests[i]) && !DiesAt(breakers, requests, i)
    ensures BreakersAt(breakers, requests, n, true) == BreakersAt(breakers, requests, n, false)
    ensures forall i :: 0 <= i < n ==>
              var streamed, completed := ReplyAt(breakers, requests, i, true), ReplyAt(breakers, requests, i, false);
              && streamed.ending == completed.ending
              && (streamed.ending.Finished? ==> completed.chunks == [Text.Strip(Flatten(streamed.chunks))])
  {
    hide BreakersAfter, Consulted, ChainEnd, ChainChunks, AllStream, CallCounts, Joined;
    if n > 0 {
      SameReplies(breakers, requests, n - 1);
      StreamAgreesWithComplete(BreakersAt(breakers, requests, n - 1, true), requests[n - 1]);
    }
  }

  // ---------------------------------------------------------------- breakers under the chain

  /** A breaker some history of calls leads to. */
  ghost predicate ReachableBreaker(b: Breaker, threshold: int, timeout: real) {
    exists events: seq<Event> :: b == At(NewBreaker(threshold, timeout), events, |events|)
  }

  lemma {:induction false} ReachableNext(b: Breaker, threshold: int, timeout: real, event: Event)
    requires ReachableBreaker(b, threshold, timeout)
    ensures ReachableBreaker(After(b, event), threshold, timeout)
  {
    var start := NewBreaker(threshold, timeout);
    var events: seq<Event> :| b == At(start, events, |events|);
    AtPrefix(start, events, [event], |events|);
    assert After(b, event) == At(start, events + [event], |events + [event]|);
  }

  ghost predicate AllReachable(breakers: Breakers, threshold: int, timeout: real) {
    forall n :: n in breakers ==> ReachableBreaker(breakers[n], threshold, timeout)
  }

  lemma {:induction false} CallsKeepReachable(
    breakers: Breakers, name: string, calls: seq<Call>, n: nat, threshold: int, timeout: real)
    requires AllReachable(breakers, threshold, timeout) && n <= |calls|
    ensures AllReachable(AfterCalls(breakers, name, calls, n), threshold, timeout)
  {
    if n > 0 {
      CallsKeepReachable(breakers, name, calls, n - 1, threshold, timeout);
      var before := AfterCalls(breakers, name, calls, n - 1);
      if name in before {
        ReachableNext(before[name], threshold, timeout, Success);
        ReachableNext(before[name], threshold, timeout, Failure(calls[n - 1].at));
      }
    }
  }

  /** Whatever requests do, every breaker stays within the histories of its own state machine. */
  lemma {:induction false} ChainKeepsReachable(
    breakers: Breakers, rungs: seq<Rung>, k: nat, streaming: bool, threshold: int, timeout: real)
    requires AllReachable(breakers, threshold, timeout) && k <= |rungs|
    ensures AllReachable(BreakersAfter(breakers, rungs, k, streaming), threshold, timeout)
  {
    if k > 0 {
      ChainKeepsReachable(breakers, rungs, k - 1, streaming, threshold, timeout);
      var before, rung := BreakersAfter(breakers, rungs, k - 1, streaming), rungs[k - 1];
      if rung.name in before { ReachableNext(before[rung.name], threshold, timeout, Attempt(rung.now)); }
      CallsKeepReachable(
        AfterCheck(before, rung), rung.name, rung.calls, CallsMade(rung.calls, streaming), threshold, timeout);
    }
  }

  lemma {:induction false} FailingCalls(breakers: Breakers, name: string, calls: seq<Call>, n: nat)
    requires name in breakers && breakers[name].status != Open
    requires n <= |calls| && forall a :: 0 <= a < n ==> calls[a].reply.ending.Unavailable?
    ensures var b := breakers[name];
            && name in AfterCalls(breakers, name, calls, n)
            && AfterCalls(breakers, name, calls, n)[name]
               == b.(failures := b.failures + n,
                     lastFailure := if n == 0 then b.lastFailure else Some(calls[n - 1].at),
                     status := if n > 0 && b.failures + n >= b.threshold then Open else b.status)
  {
    if n > 0 { FailingCalls(breakers, name, calls, n - 1); }
  }

  lemma {:induction false} UndecidedFail(calls: seq<Call>, streaming: bool)
    ensures forall a :: 0 <= a < FirstDecisive(calls, streaming, 0) && a < |calls| ==>
              calls[a].reply.ending.Unavailable?
  {
    FirstDecisiveFacts(calls, streaming, 0);
    forall a | 0 <= a < FirstDecisive(calls, streaming, 0) && a < |calls|
      ensures calls[a].reply.ending.Unavailable?
    {
      assert !Decisive(calls[a], streaming);
    }
  }

  /** Failures a tried rung's breaker is told of: every call made that ends unavailable. */
  function FailedCalls(calls: seq<Call>, streaming: bool): nat {
    FirstDecisiveFacts(calls, streaming, 0);
    var d := FirstDecisive(calls, streaming, 0);
    if d < |calls| && calls[d].reply.ending.Unavailable? then d + 1 else d
  }

  /** What a rung leaves of its own breaker, whatever its calls do: an answer zeroes the count and
      anything but the provider error adds nothing to it; the breaker is OPEN exactly when the
      failures reached the threshold on the way, and otherwise CLOSED after an answer and as
      the check left it after none. */
  lemma {:induction false} RungBreaker(breakers: Breakers, rung: Rung, streaming: bool)
    requires Tried(breakers, rung, streaming)
    ensures var b, after, d := breakers[rung.name], AfterRung(breakers, rung, streaming),
                               FirstDecisive(rung.calls, streaming, 0);
            var n := FailedCalls(rung.calls, streaming);
            var answered := d < |rung.calls| && rung.calls[d].reply.ending.Finished?;
            && n <= |rung.calls| && rung.name in after
            && after[rung.name].failures == (if answered then 0 else b.failures + n)
            && after[rung.name].lastFailure == (if n == 0 then b.lastFailure else Some(rung.calls[n - 1].at))
            && after[rung.name].status == (if n > 0 && b.failures + n >= b.threshold then Open
                                           else if answered then Closed
                                           else if b.status == Open then HalfOpen else b.status)
  {
    FirstDecisiveFacts(rung.calls, streaming, 0);
    UndecidedFail(rung.calls, streaming);
    FailingCalls(AfterCheck(breakers, rung), rung.name, rung.calls, FailedCalls(rung.calls, streaming));
  }

  /** A rung leaves the breakers of the others alone, and its own too but for the move to
      HALF_OPEN when it is passed over. */
  lemma {:induction false} RungTouchesOwn(breakers: Breakers, rung: Rung, streaming: bool, name: string)
    ensures name != rung.name ==> SameAt(AfterRung(breakers, rung, streaming), breakers, name)
    ensures name == rung.name && name in breakers && !Tried(breakers, rung, streaming) ==>
              && name in AfterRung(breakers, rung, streaming)
              && AfterRung(breakers, rung, streaming)[name]
                 == if breakers[name].status == Open && Admits(breakers[name], rung.now)
                    then breakers[name].(status := HalfOpen) else breakers[name]
  {
    if name != rung.name {
      CallsTouchOne(AfterCheck(breakers, rung), rung.name, rung.calls, CallsMade(rung.calls, streaming), name);
    }
  }

  /** Attempt `d` of a tried rung answers, after `d` failed ones. */
  predicate AnswersAt(breakers: Breakers, rung: Rung, streaming: bool, d: nat) {
    && Tried(breakers, rung, streaming)
    && d == FirstDecisive(rung.calls, streaming, 0) < |rung.calls|
    && rung.calls[d].reply.ending.Finished?
  }

  /** The failed attempts of the answering request, on top of the failures counted before it,
      reach the threshold. */
  predicate OpensOnTheWay(b: Breaker, d: nat) {
    d > 0 && b.failures + d >= b.threshold
  }

  /** A provider that has just answered has a zero count; its breaker is left OPEN exactly when
      the failed attempts of the same request reached the threshold, and is CLOSED otherwise. */
  lemma {:induction false} AnsweredLeavesOpen(breakers: Breakers, rung: Rung, streaming: bool, d: nat)
    requires AnswersAt(breakers, rung, streaming, d)
    ensures var after := AfterRung(breakers, rung, streaming);
            && rung.name in after && after[rung.name].failures == 0
            && after[rung.name].status == (if OpensOnTheWay(breakers[rung.name], d) then Open else Closed)
            && after[rung.name].recoveryTimeout == breakers[rung.name].recoveryTimeout
            && (d > 0 ==> after[rung.name].lastFailure == Some(rung.calls[d - 1].at))
  {
    UndecidedFail(rung.calls, streaming);
    FailingCalls(AfterCheck(breakers, rung), rung.name, rung.calls, d);
  }

  /** After answering, a provider is refused exactly when its quota is exceeded, or the request
      opened its breaker on the way and the recovery time since its last failure is not over. */
  lemma {:induction false} AnsweredYetRefused(
    breakers: Breakers, rung: Rung, streaming: bool, d: nat, later: Rung)
    requires AnswersAt(breakers, rung, streaming, d) && later.name == rung.name
    ensures !Usable(AfterRung(breakers, rung, streaming), later)
            <==> later.quotaExceeded
                 || (OpensOnTheWay(breakers[rung.name], d)
                     && later.now <= rung.calls[d - 1].at + breakers[rung.name].recoveryTimeout)
  {
    AnsweredLeavesOpen(breakers, rung, streaming, d);
  }

  const FAILURE_THRESHOLD: int := 3
  const RECOVERY_TIMEOUT: real := 300.0

  /** With the service's threshold and one retry: a request that fails twice, then one that
      fails once and is answered, leave the provider OPEN. */
  lemma {:induction false} AnsweredYetOpenByDefault(breakers: Breakers, failed: Rung, answered: Rung)
    requires failed.name == answered.name && failed.name in breakers
    requires !failed.quotaExceeded && !answered.quotaExceeded
    requires breakers[failed.name] == NewBreaker(FAILURE_THRESHOLD, RECOVERY_TIMEOUT)
    requires |failed.calls| == |answered.calls| == 2
    requires failed.calls[0].reply.ending.Unavailable? && failed.calls[1].reply.ending.Unavailable?
    requires answered.calls[0].reply.ending.Unavailable? && answered.calls[1].reply.ending.Finished?
    ensures var between := AfterRung(breakers, failed, false);
            var after := AfterRung(between, answered, false);
            && Exhausted(breakers, failed, false) && AnswersAt(between, answered, false, 1)
            && answered.name in after && after[answered.name].status == Open && after[answered.name].failures == 0
  {
    var between := AfterRung(breakers, failed, false);
    assert FirstDecisive(failed.calls, false, 1) == FirstDecisive(failed.calls, false, 2);
    FailingCalls(AfterCheck(breakers, failed), failed.name, failed.calls, 2);
    assert FirstDecisive(answered.calls, false, 1) == 1;
    AnsweredLeavesOpen(between, answered, false, 1);
  }

  // ---------------------------------------------------------------- rotation within one provider

  /** A provider that rotates through a list of models looks to the chain like one call: that
      of the first decisive model, or unavailable when there is none. */
  function Rotation(calls: seq<Call>, streaming: bool, at: real): Call {
    FirstDecisiveFacts(calls, streaming, 0);
    var d := FirstDecisive(calls, streaming, 0);
    if d < |calls| then calls[d]
    else Call(Reply([], Unavailable("openrouter: all models failed: " + LastError(calls))), at)
  }

  function LastError(calls: seq<Call>): string {
    if calls == [] then "unknown"
    else if Last(calls).reply.ending.Unavailable? && Last(calls).reply.ending.message != "" then
      Last(calls).reply.ending.message
    else "unknown"
  }

  method RotateStream(calls: seq<Call>, at: real) returns (tokens: seq<string>, ending: Ending)
    ensures Rotation(calls, true, at).reply == Reply(tokens, ending)
  {
    tokens := [];
    var lastError: Option<string> := None;
    for m := 0 to |calls|
      invariant tokens == [] && FirstDecisive(calls, true, 0) == FirstDecisive(calls, true, m)
      invariant lastError.Some? <==> m > 0
      invariant m > 0 ==> calls[m - 1].reply.ending == Unavailable(lastError.value)
    {
      var started := false;
      for i := 0 to |calls[m].reply.chunks|
        invariant tokens == calls[m].reply.chunks[..i] && (started <==> i > 0)
      {
        started := true;
        tokens := tokens + [calls[m].reply.chunks[i]];
      }
      if !calls[m].reply.ending.Unavailable? || started { return tokens, calls[m].reply.ending; }
      lastError := Some(calls[m].reply.ending.message);
    }
    FirstDecisiveFacts(calls, true, 0);
    var last := if lastError.Some? && lastError.value != "" then lastError.value else "unknown";
    ending := Unavailable("openrouter: all models failed: " + last);
  }

  /** When no model is decisive, the rotation is unavailable and names the error of the last one. */
  lemma {:induction false} RotationFails(calls: seq<Call>, streaming: bool, at: real)
    requires forall m :: 0 <= m < |calls| ==> !Decisive(calls[m], streaming)
    ensures calls != [] ==> Last(calls).reply.ending.Unavailable?
    ensures var known := calls != [] && Last(calls).reply.ending.message != "";
            Rotation(calls, streaming, at).reply
            == Reply([], Unavailable("openrouter: all models failed: "
                                     + if known then Last(calls).reply.ending.message else "unknown"))
  {
    FirstDecisiveFacts(calls, streaming, 0);
    if calls != [] { assert !Decisive(calls[|calls| - 1], streaming); }
  }

  /** The rotation is decisive exactly when one of its models is; then it shows the chunks and
      the end of the first such model. */
  lemma {:induction false} RotationIsFirstDecisive(calls: seq<Call>, streaming: bool, at: real)
    ensures Decisive(Rotation(calls, streaming, at), streaming)
            <==> exists m :: 0 <= m < |calls| && Decisive(calls[m], streaming)
    ensures forall m :: 0 <= m < |calls| && Decisive(calls[m], streaming)
                        && (forall i :: 0 <= i < m ==> !Decisive(calls[i], streaming))
              ==> Rotation(calls, streaming, at) == calls[m]
  {
    FirstDecisiveFacts(calls, streaming, 0);
  }
}
