/** Answer generation: the attempt loop with and without streaming. */
module Generation {
  import opened Sequences
  import opened ProviderChain
  import Text

  /** The answer: assembled from a validated payload, synthesized, or a refusal. */
  datatype Answer = Grounded(payload: string) | Synthesized(html: string) | Refused(reason: string)

  datatype Event = Token(text: string) | Final(answer: Answer)

  /** Validation of raw output without the whitespace around it, which parsing strips first:
      the payload, or nothing when it is rejected. */
  type Validator = string -> Option<string>

  // ---------------------------------------------------------------- replaying an explanation

  /** Python's `s.split(" ")`. */
  function Words(s: string): (words: seq<string>)
    ensures words != []
  {
    if s == "" then [""]
    else
      var rest := Words(s[1..]);
      if s[0] == ' ' then [""] + rest else [[s[0]] + rest[0]] + rest[1..]
  }

  /** Python's `" ".join(words)`. */
  function JoinWords(words: seq<string>): string {
    if words == [] then ""
    else if |words| == 1 then words[0]
    else words[0] + " " + JoinWords(words[1..])
  }

  function GroupsFrom(words: seq<string>, i: nat, width: nat): seq<string>
    requires width > 0
    decreases if i < |words| then |words| - i else 0
  {
    if i >= |words| then []
    else [JoinWords(words[i..Min(i + width, |words|)]) + " "] + GroupsFrom(words, i + width, width)
  }

  function StreamDeltas(html: string): seq<string> {
    var words := Words(html);
    if |words| == 1 && Text.Strip(words[0]) == "" then [] else GroupsFrom(words, 0, 4)
  }

  /** Every word followed by a blank. */
  function Spaced(words: seq<string>): string {
    if words == [] then "" else words[0] + " " + Spaced(words[1..])
  }

  lemma {:induction false} JoinSpaced(words: seq<string>)
    requires words != []
    ensures JoinWords(words) + " " == Spaced(words)
  {
    if |words| > 1 { JoinSpaced(words[1..]); } else { assert Spaced(words[1..]) == ""; }
  }

  lemma {:induction false} SpacedConcat(a: seq<string>, b: seq<string>)
    ensures Spaced(a + b) == Spaced(a) + Spaced(b)
  {
    if a == [] {
      assert a + b == b;
    } else {
      assert (a + b)[1..] == a[1..] + b;
      SpacedConcat(a[1..], b);
    }
  }

  lemma {:induction false} GroupsSpaced(words: seq<string>, i: nat, width: nat)
    requires width > 0 && i <= |words|
    ensures Flatten(GroupsFrom(words, i, width)) == Spaced(words[i..])
    decreases |words| - i
  {
    if i < |words| {
      var end := Min(i + width, |words|);
      var group := words[i..end];
      JoinSpaced(group);
      SpacedConcat(group, words[end..]);
      assert words[i..] == group + words[end..];
      if i + width <= |words| {
        GroupsSpaced(words, i + width, width);
      }
      var rest := GroupsFrom(words, i + width, width);
      assert ([JoinWords(group) + " "] + rest)[1..] == rest;
    }
  }

  lemma {:induction false} WordsRoundTrip(s: string)
    ensures Spaced(Words(s)) == s + " "
  {
    if s != "" {
      WordsRoundTrip(s[1..]);
      var rest := Words(s[1..]);
      if s[0] == ' ' {
        assert ([""] + rest)[1..] == rest;
      } else {
        assert ([[s[0]] + rest[0]] + rest[1..])[1..] == rest[1..];
        assert Spaced(Words(s)) == [s[0]] + Spaced(rest);
      }
    }
  }

  lemma {:induction false} SingleWord(s: string)
    requires |Words(s)| == 1
    ensures Words(s)[0] == s
  {
    if s != "" { SingleWord(s[1..]); }
  }

  lemma {:induction false} StripRightBlank(s: string)
    ensures Text.StripRight(s + " ") == Text.StripRight(s)
  {
    Text.SpaceFacts(' ');
    assert (s + " ")[..|s|] == s;
  }

  lemma {:induction false} BlankStripsRight(s: string)
    requires Text.Strip(s) == ""
    ensures Text.StripRight(s) == ""
  {
    var a := Text.StripFacts(s);
    Text.StripRightFacts(s);
    VisibleEmpty(Text.StripRight(s));
  }

  lemma {:induction false} VisibleEmpty(s: string)
    ensures Text.Visible(s) == "" && s != "" ==> Text.IsSpace(Last(s))
  {
    if s != "" {
      assert s == s[..|s| - 1] + [Last(s)];
      Text.VisibleConcat(s[..|s| - 1], [Last(s)]);
    }
  }

  /** The deltas reassemble to the explanation followed by one blank, or to nothing when it is
      blank: in every case to the explanation up to trailing whitespace. */
  lemma {:induction false} DeltasReassemble(html: string)
    ensures StreamDeltas(html) != [] ==> Flatten(StreamDeltas(html)) == html + " "
    ensures Text.StripRight(Flatten(StreamDeltas(html))) == Text.StripRight(html)
  {
    var words := Words(html);
    if |words| == 1 && Text.Strip(words[0]) == "" {
      SingleWord(html);
      BlankStripsRight(html);
    } else {
      GroupsSpaced(words, 0, 4);
      WordsRoundTrip(html);
      assert words[0..] == words;
      StripRightBlank(html);
    }
  }

  lemma {:induction false} WordsWithoutBlanks(s: string)
    ensures forall i :: 0 <= i < |Words(s)| ==> ' ' !in Words(s)[i]
  {
    if s != "" { WordsWithoutBlanks(s[1..]); }
  }

  lemma {:induction false} GroupAt(words: seq<string>, i: nat, width: nat, k: nat)
    requires width > 0 && k < |GroupsFrom(words, i, width)|
    ensures i + k * width < |words|
    ensures GroupsFrom(words, i, width)[k]
            == JoinWords(words[i + k * width..Min(i + k * width + width, |words|)]) + " "
    decreases k
  {
    hide JoinWords;
    if k > 0 {
      OneFewer(k, width);
      GroupAt(words, i + width, width, k - 1);
    }
  }

  lemma {:induction false} OneFewer(k: nat, width: nat)
    requires k > 0
    ensures k * width == (k - 1) * width + width && (k - 1) * width >= 0
  {
  }

  /** Each delta is the next four words of the explanation, the last one what is left. */
  lemma {:induction false} DeltasOfFourWords(html: string, k: nat)
    requires k < |StreamDeltas(html)|
    ensures 4 * k < |Words(html)|
    ensures StreamDeltas(html)[k] == JoinWords(Words(html)[4 * k..Min(4 * k + 4, |Words(html)|)]) + " "
    ensures forall i :: 0 <= i < |Words(html)| ==> ' ' !in Words(html)[i]
  {
    WordsWithoutBlanks(html);
    GroupAt(Words(html), 0, 4, k);
  }

  // ---------------------------------------------------------------- without streaming

  /** The raw output of a provider: what `complete` returns, and what the parts of a stream
      join to. */
  function RawText(reply: Reply): string { Flatten(reply.chunks) }

  function Verdict(reply: Reply, judge: Validator): Option<string> {
    judge(Text.Strip(RawText(reply)))
  }

  predicate Rejected(reply: Reply, judge: Validator) {
    reply.ending.Finished? && Verdict(reply, judge).None?
  }

  /** The first call from `a` on whose output is not rejected, or `attempts`. */
  function DecidingCall(script: seq<Reply>, judge: Validator, a: nat, attempts: nat): nat
    requires attempts <= |script| && a <= attempts
    decreases attempts - a
  {
    if a == attempts || !Rejected(script[a], judge) then a else DecidingCall(script, judge, a + 1, attempts)
  }

  lemma {:induction false} DecidingCallFacts(script: seq<Reply>, judge: Validator, a: nat, attempts: nat)
    requires attempts <= |script| && a <= attempts
    ensures var d := DecidingCall(script, judge, a, attempts);
            && a <= d <= attempts
            && (d < attempts ==> !Rejected(script[d], judge))
            && forall i :: a <= i < d ==> Rejected(script[i], judge)
    decreases attempts - a
  {
    if a < attempts && Rejected(script[a], judge) { DecidingCallFacts(script, judge, a + 1, attempts); }
  }

  /** Calls made: up to the deciding one, or all. */
  function CallsTaken(script: seq<Reply>, judge: Validator, attempts: nat): nat
    requires attempts <= |script|
  {
    DecidingCallFacts(script, judge, 0, attempts);
    Min(DecidingCall(script, judge, 0, attempts) + 1, attempts)
  }

  /** The answer to a request over sufficient evidence. */
  function AnswerOf(script: seq<Reply>, judge: Validator, attempts: nat, html: string): Answer
    requires attempts <= |script|
  {
    DecidingCallFacts(script, judge, 0, attempts);
    var d := DecidingCall(script, judge, 0, attempts);
    if d == attempts then Refused("generation_unavailable")
    else match script[d].ending
      case Finished => Grounded(Verdict(script[d], judge).value)
      case _ => Synthesized(html)
  }

  /** `generate`: `html` is what the synthesizer answers for the same evidence. */
  method Generate(
    sufficient: bool, provider: Option<seq<Reply>>, judge: Validator, retries: int, html: string)
    returns (answer: Answer, calls: nat)
    requires provider.Some? ==> retries + 1 <= |provider.value|
    ensures !sufficient ==> answer == Refused("insufficient_evidence") && calls == 0
    ensures sufficient && provider.None? ==> answer == Synthesized(html) && calls == 0
    ensures sufficient && provider.Some? ==>
              && answer == AnswerOf(provider.value, judge, Max(0, retries + 1), html)
              && calls == CallsTaken(provider.value, judge, Max(0, retries + 1))
  {
    calls := 0;
    if !sufficient { return Refused("insufficient_evidence"), 0; }
    if provider.None? { return Synthesized(html), 0; }
    var script, attempts: nat := provider.value, Max(0, retries + 1);
    for attempt := 0 to attempts
      invariant DecidingCall(script, judge, 0, attempts) == DecidingCall(script, judge, attempt, attempts)
      invariant calls == attempt
    {
      calls := calls + 1;
      match script[attempt].ending
      case Finished =>
        var payload := Verdict(script[attempt], judge);
        if payload.Some? { return Grounded(payload.value), calls; }
      case _ =>
        return Synthesized(html), calls;
    }
    answer := Refused("generation_unavailable");
  }

  // ---------------------------------------------------------------- streaming

  /** How a provider with `complete` only is streamed: its whole output as one part, or as none. */
  function AsStream(reply: Reply): Reply {
    Reply(if reply.ending.Finished? && RawText(reply) != "" then [RawText(reply)] else [], reply.ending)
  }

  function AsStreams(script: seq<Reply>): seq<Reply> {
    seq(|script|, i requires 0 <= i < |script| => AsStream(script[i]))
  }

  function Tokens(texts: seq<string>): seq<Event> {
    seq(|texts|, i requires 0 <= i < |texts| => Token(texts[i]))
  }

  /** The parts of the first `n` attempts. */
  function PartsBefore(script: seq<Reply>, n: nat): seq<string>
    requires n <= |script|
  {
    if n == 0 then [] else PartsBefore(script, n - 1) + script[n - 1].chunks
  }

  lemma {:induction false} TokensConcat(a: seq<string>, b: seq<string>)
    ensures Tokens(a + b) == Tokens(a) + Tokens(b)
  {
  }

  lemma {:induction false} TokensAppend(a: seq<string>, text: string)
    ensures Tokens(a + [text]) == Tokens(a) + [Token(text)]
  {
  }

  /** Everything the caller receives, and whether the generator then raises. */
  function StreamOf(script: seq<Reply>, judge: Validator, attempts: nat, html: string): (seq<Event>, bool)
    requires attempts <= |script|
  {
    DecidingCallFacts(script, judge, 0, attempts);
    var d := DecidingCall(script, judge, 0, attempts);
    if d == attempts then (Tokens(PartsBefore(script, d)) + [Final(Refused("generation_unavailable"))], false)
    else
      var seen := Tokens(PartsBefore(script, d + 1));
      match script[d].ending
      case Finished => (seen + [Final(Grounded(Verdict(script[d], judge).value))], false)
      case Unavailable(_) => (seen + Tokens(StreamDeltas(html)) + [Final(Synthesized(html))], false)
      case VendorError(_) => (seen, true)
  }

  /** Yields the parts of one attempt. */
  method YieldParts(before: seq<Event>, parts: seq<string>) returns (events: seq<Event>)
    ensures events == before + Tokens(parts)
  {
    events := before;
    for i := 0 to |parts|
      invariant events == before + Tokens(parts[..i])
    {
      SliceAppend(parts, 0, i);
      TokensAppend(parts[..i], parts[i]);
      events := events + [Token(parts[i])];
    }
    assert parts[..|parts|] == parts;
  }

  /** `stream_answer`. */
  method StreamAnswer(
    sufficient: bool, provider: Option<seq<Reply>>, judge: Validator, retries: int, html: string)
    returns (events: seq<Event>, raised: bool, calls: nat)
    requires provider.Some? ==> retries + 1 <= |provider.value|
    ensures !sufficient ==> events == [Final(Refused("insufficient_evidence"))] && !raised && calls == 0
    ensures sufficient && provider.None? ==>
              events == Tokens(StreamDeltas(html)) + [Final(Synthesized(html))] && !raised && calls == 0
    ensures sufficient && provider.Some? ==>
              (events, raised) == StreamOf(provider.value, judge, Max(0, retries + 1), html)
              && calls == CallsTaken(provider.value, judge, Max(0, retries + 1))
  {
    events, raised, calls := [], false, 0;
    if !sufficient { return [Final(Refused("insufficient_evidence"))], false, 0; }
    if provider.None? {
      events := YieldParts(events, StreamDeltas(html));
      return events + [Final(Synthesized(html))], false, 0;
    }
    var script, attempts: nat := provider.value, Max(0, retries + 1);
    for attempt := 0 to attempts
      invariant DecidingCall(script, judge, 0, attempts) == DecidingCall(script, judge, attempt, attempts)
      invariant events == Tokens(PartsBefore(script, attempt))
      invariant calls == attempt
    {
      calls := calls + 1;
      TokensConcat(PartsBefore(script, attempt), script[attempt].chunks);
      events := YieldParts(events, script[attempt].chunks);
      match script[attempt].ending
      case Finished =>
        var payload := Verdict(script[attempt], judge);
        if payload.Some? { return events + [Final(Grounded(payload.value))], false, calls; }
      case Unavailable(_) =>
        events := YieldParts(events, StreamDeltas(html));
        return events + [Final(Synthesized(html))], false, calls;
      case VendorError(_) =>
        return events, true, calls;
    }
    events := events + [Final(Refused("generation_unavailable"))];
  }

  // ---------------------------------------------------------------- which answer

  /** The chunks of the first `n` replies, reply by reply. */
  function ChunkLists(script: seq<Reply>, n: nat): seq<seq<string>>
    requires n <= |script|
  {
    seq(n, i requires 0 <= i < n => script[i].chunks)
  }

  lemma {:induction false} PartsAreAllChunks(script: seq<Reply>, n: nat)
    requires n <= |script|
    ensures PartsBefore(script, n) == Flatten(ChunkLists(script, n))
  {
    if n > 0 {
      PartsAreAllChunks(script, n - 1);
      assert ChunkLists(script, n) == ChunkLists(script, n - 1) + [script[n - 1].chunks];
      FlattenConcat(ChunkLists(script, n - 1), [script[n - 1].chunks]);
      FlattenSingle(script[n - 1].chunks);
    }
  }

  /** The raw output of the reply is accepted by validation, with this payload. */
  predicate Accepts(reply: Reply, judge: Validator, payload: string) {
    reply.ending == Finished && judge(Text.Strip(Flatten(reply.chunks))) == Some(payload)
  }

  predicate Refuses(reply: Reply, judge: Validator) {
    reply.ending == Finished && judge(Text.Strip(Flatten(reply.chunks))) == None
  }

  lemma {:induction false} DecidesAt(script: seq<Reply>, judge: Validator, a: nat, d: nat, attempts: nat)
    requires a <= d <= attempts <= |script| && forall i :: a <= i < d ==> Refuses(script[i], judge)
    requires d < attempts ==> !Refuses(script[d], judge)
    ensures DecidingCall(script, judge, a, attempts) == d
    decreases d - a
  {
    if a < d { DecidesAt(script, judge, a + 1, d, attempts); }
  }

  /** The answer, call by call: validation decides the first attempt it does not refuse, which is
      grounded in its own payload when it is accepted and synthesized when the provider fails,
      and the answer is a refusal when every attempt is refused. No further call is made. */
  lemma {:induction false} AnswerByAttempt(
    script: seq<Reply>, judge: Validator, attempts: nat, html: string, d: nat)
    requires d <= attempts <= |script| && forall i :: 0 <= i < d ==> Refuses(script[i], judge)
    ensures d == attempts ==>
              && AnswerOf(script, judge, attempts, html) == Refused("generation_unavailable")
              && CallsTaken(script, judge, attempts) == attempts
    ensures forall payload :: d < attempts && Accepts(script[d], judge, payload) ==>
              && AnswerOf(script, judge, attempts, html) == Grounded(payload)
              && CallsTaken(script, judge, attempts) == d + 1
    ensures d < attempts && script[d].ending != Finished ==>
              && AnswerOf(script, judge, attempts, html) == Synthesized(html)
              && CallsTaken(script, judge, attempts) == d + 1
  {
    hide Flatten, Text.Strip;
    if d == attempts || !Refuses(script[d], judge) { DecidesAt(script, judge, 0, d, attempts); }
  }

  /** The stream, call by call: the chunks of every attempt made, as they came, and then the
      refusal, the validated answer, the synthesized explanation replayed and its answer, or, on a
      vendor exception, nothing more and a raise. */
  lemma {:induction false} StreamByAttempt(
    script: seq<Reply>, judge: Validator, attempts: nat, html: string, d: nat)
    requires d <= attempts <= |script| && forall i :: 0 <= i < d ==> Refuses(script[i], judge)
    ensures d == attempts ==>
              StreamOf(script, judge, attempts, html)
              == (Tokens(Flatten(ChunkLists(script, d))) + [Final(Refused("generation_unavailable"))], false)
    ensures forall payload :: d < attempts && Accepts(script[d], judge, payload) ==>
              StreamOf(script, judge, attempts, html)
              == (Tokens(Flatten(ChunkLists(script, d + 1))) + [Final(Grounded(payload))], false)
    ensures d < attempts && script[d].ending.Unavailable? ==>
              StreamOf(script, judge, attempts, html)
              == (Tokens(Flatten(ChunkLists(script, d + 1))) + Tokens(StreamDeltas(html))
                  + [Final(Synthesized(html))], false)
    ensures d < attempts && script[d].ending.VendorError? ==>
              StreamOf(script, judge, attempts, html) == (Tokens(Flatten(ChunkLists(script, d + 1))), true)
  {
    hide Flatten, Text.Strip, ChunkLists, StreamDeltas;
    PartsAreAllChunks(script, d);
    if d < attempts { PartsAreAllChunks(script, d + 1); }
    if d == attempts || !Refuses(script[d], judge) { DecidesAt(script, judge, 0, d, attempts); }
  }

  // ---------------------------------------------------------------- refinement

  predicate OnlyTokens(events: seq<Event>) {
    forall i :: 0 <= i < |events| ==> events[i].Token?
  }

  /** A vendor exception is reached: all calls before it returned text that was rejected. */
  predicate VendorReached(script: seq<Reply>, judge: Validator, attempts: nat)
    requires attempts <= |script|
  {
    exists a :: 0 <= a < attempts && script[a].ending.VendorError?
                && forall i :: 0 <= i < a ==> Rejected(script[i], judge)
  }

  /** Tokens and then exactly one final answer. */
  predicate EndsWith(events: seq<Event>, answer: Answer) {
    events != [] && OnlyTokens(events[..|events| - 1]) && Last(events) == Final(answer)
  }

  /** Streaming refines generating, for every streaming provider: it raises exactly when a
      vendor exception is reached, and otherwise yields tokens and then exactly one final
      answer, the one `generate` returns for the joined parts. */
  lemma {:induction false} StreamRefinesGenerate(script: seq<Reply>, judge: Validator, attempts: nat, html: string)
    requires attempts <= |script|
    ensures var (events, raised) := StreamOf(script, judge, attempts, html);
            && (raised <==> VendorReached(script, judge, attempts))
            && (raised ==> OnlyTokens(events) && AnswerOf(script, judge, attempts, html) == Synthesized(html))
            && (!raised ==> EndsWith(events, AnswerOf(script, judge, attempts, html)))
  {
    DecidingCallFacts(script, judge, 0, attempts);
  }

  /** Where a vendor exception comes first, the stream raises while `generate` answers. */
  lemma {:induction false} StreamMayRaise(
    parts: seq<string>, message: string, later: seq<Reply>, judge: Validator, html: string)
    ensures var script := [Reply(parts, VendorError(message))] + later;
            && StreamOf(script, judge, |script|, html) == (Tokens(parts), true)
            && AnswerOf(script, judge, |script|, html) == Synthesized(html)
  {
    var script := [Reply(parts, VendorError(message))] + later;
    assert DecidingCall(script, judge, 0, |script|) == 0;
    assert PartsBefore(script, 1) == PartsBefore(script, 0) + parts == parts;
  }

  /** The two replies differ at most in an error message, in how the text is cut into parts, and in
      whitespace around it. */
  predicate SameReply(a: Reply, b: Reply) {
    && (a.ending.Finished? <==> b.ending.Finished?)
    && (a.ending.VendorError? <==> b.ending.VendorError?)
    && (a.ending.Finished? ==> Text.Strip(RawText(a)) == Text.Strip(RawText(b)))
  }

  lemma {:induction false} StripOfStripped(s: string)
    ensures Text.Strip(Flatten([Text.Strip(s)])) == Text.Strip(s)
  {
    FlattenSingle(Text.Strip(s));
    var _ := Text.StripFacts(s);
    Text.StripKeepsStripped(Text.Strip(s));
  }

  /** The answer depends on the deciding call and the calls before it only. */
  lemma {:induction false} SameAnswer(
    script: seq<Reply>, other: seq<Reply>, judge: Validator, a: nat, attempts: nat, html: string)
    requires a <= attempts <= |script| && attempts <= |other|
    requires forall i :: a <= i < attempts && i <= DecidingCall(script, judge, a, attempts) ==>
               SameReply(script[i], other[i])
    requires forall i :: 0 <= i < a ==> Rejected(script[i], judge) && SameReply(script[i], other[i])
    ensures DecidingCall(other, judge, a, attempts) == DecidingCall(script, judge, a, attempts)
    ensures a == 0 ==> AnswerOf(other, judge, attempts, html) == AnswerOf(script, judge, attempts, html)
    ensures VendorReached(other, judge, attempts) <==> VendorReached(script, judge, attempts)
    decreases attempts - a
  {
    hide RawText;
    DecidingCallFacts(script, judge, a, attempts);
    if a < attempts && Rejected(script[a], judge) { SameAnswer(script, other, judge, a + 1, attempts, html); }
  }

  /** For a complete-only provider the stream raises exactly when a vendor exception is reached
      and otherwise ends with the answer of `generate`. */
  lemma {:induction false} CompleteOnlyRefines(script: seq<Reply>, judge: Validator, attempts: nat, html: string)
    requires attempts <= |script|
    ensures var (events, raised) := StreamOf(AsStreams(script), judge, attempts, html);
            && (raised <==> VendorReached(script, judge, attempts))
            && (!raised ==> EndsWith(events, AnswerOf(script, judge, attempts, html)))
  {
    forall i | 0 <= i < |script|
      ensures SameReply(script[i], AsStream(script[i]))
    {
      FlattenSingle(RawText(script[i]));
    }
    SameAnswer(script, AsStreams(script), judge, 0, attempts, html);
    StreamRefinesGenerate(AsStreams(script), judge, attempts, html);
  }

  /** The tokens of a run that ends grounded end with the validated text itself. */
  lemma {:induction false} GroundedTokens(script: seq<Reply>, judge: Validator, attempts: nat, html: string)
    returns (d: nat)
    requires attempts <= |script| && AnswerOf(script, judge, attempts, html).Grounded?
    ensures d < attempts && Verdict(script[d], judge).Some?
    ensures StreamOf(script, judge, attempts, html).0
            == Tokens(PartsBefore(script, d)) + Tokens(script[d].chunks)
               + [Final(Grounded(Verdict(script[d], judge).value))]
  {
    DecidingCallFacts(script, judge, 0, attempts);
    d := DecidingCall(script, judge, 0, attempts);
    TokensConcat(PartsBefore(script, d), script[d].chunks);
  }

  // ---------------------------------------------------------------- the service over the chain

  lemma {:induction false} RepliesAgree(breakers: Breakers, requests: seq<seq<Rung>>, n: nat)
    requires n <= |requests| && forall i :: 0 <= i < n ==> AllStream(requests[i]) && !DiesAt(breakers, requests, i)
    ensures forall i :: 0 <= i < n ==>
              SameReply(Replies(breakers, requests, true)[i], Replies(breakers, requests, false)[i])
  {
    hide BreakersAt, ReplyAt, AllStream, DiesAt, Text.Strip, Flatten;
    SameReplies(breakers, requests, n);
    forall i | 0 <= i < n
      ensures SameReply(Replies(breakers, requests, true)[i], Replies(breakers, requests, false)[i])
    {
      StripOfStripped(Flatten(ReplyAt(breakers, requests, i, true).chunks));
    }
  }

  /** Streaming through the provider chain against generating through it, from the same
      breakers and with the same providers at every attempt. If the stream of the deciding
      attempt dies after its first token, the stream ends with the synthesized answer. If not,
      it raises exactly when completing reaches a vendor exception, and otherwise ends with
      the answer completing gives; either way the breakers end up the same. */
  lemma {:induction false} ServiceStreamRefines(
    breakers: Breakers, requests: seq<seq<Rung>>, judge: Validator, html: string)
    requires forall i :: 0 <= i < |requests| ==> AllStream(requests[i])
    ensures var streamed, completed := Replies(breakers, requests, true), Replies(breakers, requests, false);
            var d := DecidingCall(streamed, judge, 0, |requests|);
            var (events, raised) := StreamOf(streamed, judge, |requests|, html);
            && d <= |requests|
            && if d < |requests| && DiesAt(breakers, requests, d) then
                 !raised && EndsWith(events, Synthesized(html))
               else
                 && (raised <==> VendorReached(completed, judge, |requests|))
                 && (!raised ==> EndsWith(events, AnswerOf(completed, judge, |requests|, html)))
                 && DecidingCall(completed, judge, 0, |requests|) == d
                 && BreakersAt(breakers, requests, Min(d + 1, |requests|), true)
                    == BreakersAt(breakers, requests, Min(d + 1, |requests|), false)
  {
    hide BreakersAt, ChainEnd, ChainChunks, AllStream, RawText, Joined, StreamOf, SameReply, EndsWith;
    var streamed, completed := Replies(breakers, requests, true), Replies(breakers, requests, false);
    var n := |requests|;
    DecidingCallFacts(streamed, judge, 0, n);
    StreamRefinesGenerate(streamed, judge, n, html);
    var d := DecidingCall(streamed, judge, 0, n);
    forall i | 0 <= i < d
      ensures !DiesAt(breakers, requests, i)
    {
      assert Rejected(streamed[i], judge);
    }
    if d == n || !DiesAt(breakers, requests, d) {
      SameReplies(breakers, requests, Min(d + 1, n));
      RepliesAgree(breakers, requests, Min(d + 1, n));
      SameAnswer(streamed, completed, judge, 0, n, html);
    }
  }
}
