/** What the chunks of a book hold: heading lines, body text and word counts, read off the
    chunk records themselves. */
module ChunkContents {
  import opened Sequences
  import opened Text
  import opened ChunkUnits
  import opened ChunkRanges
  import opened ChunkPacking
  import opened ChunkSentences
  import opened ChunkEngine
  import opened ChunkTheorems

  // ---------------------------------------------------------------- heading

  /** A line with its newline, or nothing without a name. */
  function Line(caption: string, name: Option<string>): string {
    match name
    case None => ""
    case Some(text) => if text == "" then "" else caption + text + "\n"
  }

  /** The heading is one line, caption and name, for each level with a name that is not empty,
      coarsest first. */
  predicate SpellsHeading(heading: string, context: Context) {
    var lines := Line("Kitab: ", context[Kitab]) + Line("Bab: ", context[Bab])
                 + Line("Fasl: ", context[Fasl]) + Line("Topic: ", context[Topic]);
    if lines == "" then heading == "" else heading + "\n" == lines
  }

  /** Lines, each with its newline. */
  function Terminated(lines: seq<string>): string {
    if lines == [] then "" else lines[0] + "\n" + Terminated(lines[1..])
  }

  lemma {:induction false} JoinTerminated(lines: seq<string>)
    ensures lines != [] ==> JoinLines(lines) + "\n" == Terminated(lines)
  {
    if |lines| > 1 {
      JoinTerminated(lines[1..]);
    } else if |lines| == 1 {
      assert Terminated(lines[1..]) == "";
    }
  }

  lemma {:induction false} TerminatedConcat(a: seq<string>, b: seq<string>)
    ensures Terminated(a + b) == Terminated(a) + Terminated(b)
  {
    if a == [] {
      assert a + b == b;
    } else {
      assert (a + b)[1..] == a[1..] + b;
      TerminatedConcat(a[1..], b);
    }
  }

  lemma {:induction false} LevelLine(context: Context, levels: seq<Level>)
    requires levels != []
    ensures Terminated(HeadingLines(context, levels))
            == Line(Title(levels[0]), NameOf(context, levels[0])) + Terminated(HeadingLines(context, levels[1..]))
  {
    var name := NameOf(context, levels[0]);
    var own := if name.Some? && name.value != "" then [Title(levels[0]) + name.value] else [];
    TerminatedConcat(own, HeadingLines(context, levels[1..]));
    if own != [] { assert Terminated(own[1..]) == ""; }
  }

  lemma {:induction false} Regroup(a: string, b: string, c: string, d: string)
    ensures a + (b + (c + (d + ""))) == a + b + c + d
  {
  }

  lemma {:induction false} LinesOfContext(context: Context)
    ensures Terminated(HeadingLines(context, CONTEXT_KEYS))
            == Line("Kitab: ", context[Kitab]) + Line("Bab: ", context[Bab])
               + Line("Fasl: ", context[Fasl]) + Line("Topic: ", context[Topic])
  {
    hide HeadingLines, Line, Terminated;
    var keys: seq<Level> := [Kitab, Bab, Fasl, Topic];
    LevelLine(context, keys);
    LevelLine(context, keys[1..]);
    LevelLine(context, keys[2..]);
    LevelLine(context, keys[3..]);
    assert keys[1..][1..] == keys[2..] && keys[2..][1..] == keys[3..] && keys[3..][1..] == [];
    NoLines(context);
    Regroup(Line("Kitab: ", context[Kitab]), Line("Bab: ", context[Bab]),
            Line("Fasl: ", context[Fasl]), Line("Topic: ", context[Topic]));
  }

  lemma {:induction false} NoLines(context: Context)
    ensures Terminated(HeadingLines(context, [])) == ""
  {
  }

  lemma {:induction false} HeadingSpelled(context: Context)
    ensures SpellsHeading(ContextHeading(context), context)
  {
    hide HeadingLines, Line;
    LinesOfContext(context);
    JoinTerminated(HeadingLines(context, CONTEXT_KEYS));
  }

  // ---------------------------------------------------------------- body

  /** Where sentence `k` starts in the body when one character separates neighbours. */
  function SentenceStart(pack: seq<Sentence>, k: nat): nat
    requires k <= |pack|
  {
    if k == 0 then 0 else SentenceStart(pack, k - 1) + |pack[k - 1].text| + 1
  }

  /** Sentence `k` stands in the body at its place, after a newline when it opens a unit and
      after a blank within one. */
  predicate HoldsSentence(body: string, pack: seq<Sentence>, k: nat)
    requires k < |pack|
  {
    var at := SentenceStart(pack, k);
    && at + |pack[k].text| <= |body|
    && body[at..at + |pack[k].text|] == pack[k].text
    && (k > 0 ==> at > 0 && body[at - 1] == if pack[k].unitKey != pack[k - 1].unitKey then '\n' else ' ')
  }

  /** The body is the first `n` sentences and the characters between them, and nothing else. */
  predicate Spells(body: string, pack: seq<Sentence>, n: nat)
    requires 0 < n <= |pack|
  {
    && |body| + 1 == SentenceStart(pack, n)
    && forall k :: 0 <= k < n ==> HoldsSentence(body, pack, k)
  }

  lemma {:induction false} StartsGrow(pack: seq<Sentence>, k: nat, n: nat)
    requires k < n <= |pack|
    ensures SentenceStart(pack, k) + |pack[k].text| + 1 <= SentenceStart(pack, n)
  {
    if k < n - 1 { StartsGrow(pack, k, n - 1); }
  }

  lemma {:induction false} JoinSpells(pack: seq<Sentence>, n: nat)
    requires 0 < n <= |pack|
    ensures Spells(JoinFirst(pack, n), pack, n)
  {
    var body := JoinFirst(pack, n);
    if n == 1 {
      assert SentenceStart(pack, 0) == 0;
      assert HoldsSentence(body, pack, 0);
    } else {
      var before := JoinFirst(pack, n - 1);
      JoinSpells(pack, n - 1);
      assert body == before + Separator(pack, n - 1) + pack[n - 1].text;
      assert |Separator(pack, n - 1)| == 1;
      forall k | 0 <= k < n
        ensures HoldsSentence(body, pack, k)
      {
        if k < n - 1 {
          assert HoldsSentence(before, pack, k);
          StartsGrow(pack, k, n - 1);
          var at := SentenceStart(pack, k);
          assert body[..|before|] == before;
          assert body[at..at + |pack[k].text|] == body[..|before|][at..at + |pack[k].text|];
          assert body[at..at + |pack[k].text|] == before[at..at + |pack[k].text|];
        }
      }
    }
  }

  lemma {:induction false} KeyOfOwner(units: seq<Unit>, lo: nat, hi: nat, k: nat)
    requires lo <= hi <= |units| && k < |SpanSentences(units, lo, hi)|
    ensures SpanSentences(units, lo, hi)[k].unitKey == BodyCount(units, lo, Owner(units, lo, hi, k))
    decreases hi - lo
  {
    hide SplitSentences;
    if k < |SpanSentences(units, lo, hi - 1)| { KeyOfOwner(units, lo, hi - 1, k); }
  }

  lemma {:induction false} BodyCountGrows(units: seq<Unit>, lo: nat, u: nat, v: nat)
    requires lo <= u < v <= |units| && units[u].IsBody()
    ensures BodyCount(units, lo, u) < BodyCount(units, lo, v)
    decreases v
  {
    if u < v - 1 { BodyCountGrows(units, lo, u, v - 1); }
  }

  /** Sentences have the same key exactly when they come from the same block. */
  lemma {:induction false} KeysAreOwners(units: seq<Unit>, lo: nat, hi: nat, j: nat, k: nat)
    requires lo <= hi <= |units|
    requires j < |SpanSentences(units, lo, hi)| && k < |SpanSentences(units, lo, hi)|
    ensures SpanSentences(units, lo, hi)[j].unitKey == SpanSentences(units, lo, hi)[k].unitKey
            <==> Owner(units, lo, hi, j) == Owner(units, lo, hi, k)
  {
    hide SpanSentences, BodyCount;
    KeyOfOwner(units, lo, hi, j);
    KeyOfOwner(units, lo, hi, k);
    var u, v := Owner(units, lo, hi, j), Owner(units, lo, hi, k);
    if u < v { BodyCountGrows(units, lo, u, v); }
    if v < u { BodyCountGrows(units, lo, v, u); }
  }

  // ---------------------------------------------------------------- the chunk record

  /** The raw text is the heading, an empty line and the body, or the body alone. */
  function Prefix(heading: string): string {
    if heading == "" then "" else heading + "\n\n"
  }

  lemma {:induction false} AcrossNewline(a: string, b: string)
    ensures Visible(a + ['\n'] + b) == Visible(a) + Visible(b)
    ensures CountTokens(a + ['\n'] + b) == CountTokens(a) + CountTokens(b)
  {
    hide CountTokens, IsSpace, Visible;
    SpaceFacts('\n');
    TokensAcrossSpace(a, '\n', b);
    VisibleConcat(a + ['\n'], b);
    VisibleConcat(a, ['\n']);
    BlankIsInvisible('\n');
  }

  lemma {:induction false} PrefixFacts(heading: string, body: string)
    ensures Visible(Prefix(heading) + body) == Visible(heading) + Visible(body)
    ensures CountTokens(Prefix(heading) + body) == CountTokens(heading) + CountTokens(body)
  {
    hide CountTokens, IsSpace, Visible;
    NothingCounts();
    if heading == "" {
      assert Prefix(heading) + body == body;
    } else {
      var rest := "" + ['\n'] + body;
      AcrossNewline("", body);
      AcrossNewline(heading, rest);
      assert Prefix(heading) + body == heading + ['\n'] + rest;
    }
  }

  lemma {:induction false} NothingCounts()
    ensures CountTokens("") == 0 && Visible("") == ""
  {
  }

  lemma {:induction false} BlankIsInvisible(c: char)
    requires IsSpace(c)
    ensures Visible([c]) == ""
  {
    assert [c][..0] == "" && [c][1..] == "";
  }

  /** The place a chunk was built from, and its number. */
  predicate HoldsPack(chunk: Chunk, pack: seq<Sentence>, n: nat) {
    && pack != []
    && chunk.orderIndex == n
    && Prefix(chunk.contextHeading) <= chunk.rawText
    && Spells(chunk.rawText[|Prefix(chunk.contextHeading)|..], pack, |pack|)
    && SpellsHeading(chunk.contextHeading, chunk.context)
    && Visible(chunk.rawText) == Visible(chunk.contextHeading) + AnchoredText(Anchors(pack))
    && chunk.tokenCount == CountTokens(chunk.contextHeading) + Tokens(pack, 0, |pack|)
  }

  lemma {:induction false} BuiltChunkHolds(pack: seq<Sentence>, context: Context, n: nat)
    requires pack != []
    ensures HoldsPack(BuildChunk(pack, context, n), pack, n)
  {
    hide Visible, CountTokens, JoinFirst, ContextHeading, SpellsHeading, Spells, AnchoredText, Anchors;
    var chunk, body := BuildChunk(pack, context, n), JoinBody(pack);
    HeadingSpelled(context);
    JoinSpells(pack, |pack|);
    JoinFacts(pack, |pack|);
    assert pack[..|pack|] == pack;
    PrefixFacts(chunk.contextHeading, body);
    assert chunk.rawText == Prefix(chunk.contextHeading) + body;
    assert chunk.rawText[|Prefix(chunk.contextHeading)|..] == body;
  }

  /** Chunk text: chunk `n` is numbered `n`; its text is its heading, an empty line and the sentences
      of its place in order, or these alone without a heading; its heading has one line per level
      in force; and its word count is that of the heading and of the sentences. */
  lemma {:induction false} ChunkText(units: seq<Unit>, maxTokens: int, budget: int, n: nat)
    requires n < |UnitChunks(units, maxTokens, budget)|
    ensures n < |BookPlan(units, maxTokens, budget)|
    ensures var p, chunk := BookPlan(units, maxTokens, budget)[n], UnitChunks(units, maxTokens, budget)[n];
            && ValidPlaced(units, p)
            && HoldsPack(chunk, SpanSentences(units, p.span.lo, p.span.hi)[p.window.lo..p.window.hi], n)
            && forall level :: NameOf(chunk.context, level) == LatestHeading(units, level, p.span.lo + 1)
  {
    hide BookPlan, UnitChunks, FreshAnchors, BookAnchors, SpanSentences, HoldsPack, BuildChunk;
    Conservation(units, maxTokens, budget);
    var p := BookPlan(units, maxTokens, budget)[n];
    assert ExplainsAt(units, p, UnitChunks(units, maxTokens, budget)[n], n);
    BuiltChunkHolds(PackOf(units, p), ContextAt(units, p.span.lo), n);
    BuiltContext(PackOf(units, p), ContextAt(units, p.span.lo), n);
  }

  /** Token budget of the chunk records: if no sentence of the book has more than `m` words, a
      chunk counts at most max(maxTokens, max(budget, m) + m) words besides its heading. */
  lemma {:induction false} ChunkBudget(units: seq<Unit>, maxTokens: int, budget: int, m: nat, n: nat)
    requires n < |UnitChunks(units, maxTokens, budget)|
    requires forall a :: a in BookAnchors(units, 0, |units|) ==> CountTokens(a.text) <= m
    ensures var chunk := UnitChunks(units, maxTokens, budget)[n];
            chunk.tokenCount <= CountTokens(chunk.contextHeading) + Max(maxTokens, Max(budget, m) + m)
  {
    hide BookPlan, UnitChunks, BookAnchors, SpanSentences, CountTokens, Tokens, Spells, SpellsHeading;
    ChunkText(units, maxTokens, budget, n);
    var p := BookPlan(units, maxTokens, budget)[n];
    TokenBudget(units, maxTokens, budget, m, p);
    JoinFacts(PackOf(units, p), |PackOf(units, p)|);
  }

  // ---------------------------------------------------------------- conservation in the chunk text

  /** The sentences a chunk carries over: its pack up to its fresh part. */
  function CarriedInto(units: seq<Unit>, previous: Option<Placed>, p: Placed, budget: int): seq<Sentence> {
    if previous.Some? && previous.value.span == p.span then Carried(PackOf(units, previous.value), budget) else []
  }

  /** Neighbouring chunks of one range come from neighbouring windows. */
  lemma {:induction false} PlanNeighbours(
    units: seq<Unit>, spans: seq<Span>, maxTokens: int, budget: int, hi: nat, n: nat) returns (j: nat)
    requires AllValidSpans(units, spans) && Chained(spans, 0, hi)
    requires n < |Plan(units, spans, maxTokens, budget)|
    ensures var plan := Plan(units, spans, maxTokens, budget);
            && ValidSpan(units, plan[n].span)
            && var windows := SpanWindows(units, plan[n].span, maxTokens, budget);
               && j < |windows| && plan[n] == Placed(plan[n].span, windows[j])
               && (if j > 0 then n > 0 && plan[n - 1] == Placed(plan[n].span, windows[j - 1])
                   else n == 0 || plan[n - 1].span != plan[n].span)
    decreases |spans|
  {
    hide Windows, SpanSentences;
    var init, span := spans[..|spans| - 1], Last(spans);
    assert span in spans;
    ChainedInit(spans, 0, hi);
    ChainedBounds(spans, 0, hi);
    var first := Plan(units, init, maxTokens, budget);
    if n < |first| {
      j := PlanNeighbours(units, init, maxTokens, budget, span.lo, n);
    } else {
      j := n - |first|;
      EarlierSpans(units, init, span, maxTokens, budget);
    }
  }

  /** What a chunk carries over is what it starts with. */
  lemma {:induction false} CarriedFirst(units: seq<Unit>, maxTokens: int, budget: int, n: nat)
    requires n < |BookPlan(units, maxTokens, budget)|
    ensures var plan := BookPlan(units, maxTokens, budget);
            PackOf(units, plan[n])
            == CarriedInto(units, Before(plan, n), plan[n], budget)
               + FreshPart(units, Before(plan, n), plan[n], budget)
  {
    hide Windows, SpanSentences, Carried, Plan, ChunkSpans;
    ChunkSpansValid(units, maxTokens);
    ChunkSpansPartition(units, maxTokens);
    var plan := BookPlan(units, maxTokens, budget);
    var j := PlanNeighbours(units, ChunkSpans(units, maxTokens), maxTokens, budget, |units|, n);
    var span := plan[n].span;
    var s, windows := SpanSentences(units, span.lo, span.hi), SpanWindows(units, span, maxTokens, budget);
    PlacedIsValid(units, span, maxTokens, budget, j);
    if j > 0 {
      PlacedIsValid(units, span, maxTokens, budget, j - 1);
      WindowAt(s, windows, maxTokens, budget, j);
      FreshAfter(s, windows[j - 1], windows[j], maxTokens, budget);
    }
  }

  /** What chunk `n` adds to the visible text of the book: its own visible text without its
      heading and without the sentences carried over. */
  function FreshVisible(chunk: Chunk, carried: seq<Sentence>): string {
    var skipped := |Visible(chunk.contextHeading)| + |AnchoredText(Anchors(carried))|;
    if skipped <= |Visible(chunk.rawText)| then Visible(chunk.rawText)[skipped..] else ""
  }

  function FreshTexts(units: seq<Unit>, maxTokens: int, budget: int, n: nat): string
    requires n <= |UnitChunks(units, maxTokens, budget)| == |BookPlan(units, maxTokens, budget)|
  {
    if n == 0 then ""
    else
      var plan := BookPlan(units, maxTokens, budget);
      FreshTexts(units, maxTokens, budget, n - 1)
      + FreshVisible(UnitChunks(units, maxTokens, budget)[n - 1],
                     CarriedInto(units, Before(plan, n - 1), plan[n - 1], budget))
  }

  lemma {:induction false} FreshOfChunk(units: seq<Unit>, maxTokens: int, budget: int, n: nat)
    requires n < |UnitChunks(units, maxTokens, budget)| && n < |BookPlan(units, maxTokens, budget)|
    ensures var plan, chunk := BookPlan(units, maxTokens, budget), UnitChunks(units, maxTokens, budget)[n];
            var carried := CarriedInto(units, Before(plan, n), plan[n], budget);
            && Visible(chunk.rawText) == Visible(chunk.contextHeading) + AnchoredText(Anchors(carried))
                                         + FreshVisible(chunk, carried)
            && FreshVisible(chunk, carried)
               == AnchoredText(Anchors(FreshPart(units, Before(plan, n), plan[n], budget)))
  {
    hide BookPlan, UnitChunks, SpanSentences, Visible, CountTokens, Tokens, Spells, SpellsHeading, CarriedInto,
      FreshPart, AnchoredText, Anchors;
    ChunkText(units, maxTokens, budget, n);
    CarriedFirst(units, maxTokens, budget, n);
    var plan := BookPlan(units, maxTokens, budget);
    var carried := CarriedInto(units, Before(plan, n), plan[n], budget);
    var own := FreshPart(units, Before(plan, n), plan[n], budget);
    AnchorsConcat(carried, own);
    AnchoredTextConcat(Anchors(carried), Anchors(own));
    HeldText(UnitChunks(units, maxTokens, budget)[n], PackOf(units, plan[n]), n);
  }

  lemma {:induction false} HeldText(chunk: Chunk, pack: seq<Sentence>, n: nat)
    requires HoldsPack(chunk, pack, n)
    ensures Visible(chunk.rawText) == Visible(chunk.contextHeading) + AnchoredText(Anchors(pack))
  {
    hide Visible, AnchoredText, Anchors, Spells, SpellsHeading;
  }

  lemma {:induction false} NoAnchors()
    ensures AnchoredText([]) == ""
  {
  }

  lemma {:induction false} FreshTextsAre(units: seq<Unit>, maxTokens: int, budget: int, n: nat)
    requires n <= |UnitChunks(units, maxTokens, budget)| == |BookPlan(units, maxTokens, budget)|
    ensures FreshTexts(units, maxTokens, budget, n)
            == AnchoredText(FreshAnchors(units, BookPlan(units, maxTokens, budget), n, budget))
  {
    hide BookPlan, UnitChunks, FreshVisible, CarriedInto, FreshPart, Anchors, AnchoredText, Visible;
    NoAnchors();
    if n > 0 {
      var plan := BookPlan(units, maxTokens, budget);
      FreshTextsAre(units, maxTokens, budget, n - 1);
      FreshOfChunk(units, maxTokens, budget, n - 1);
      AnchoredTextConcat(FreshAnchors(units, plan, n - 1, budget),
                         Anchors(FreshPart(units, Before(plan, n - 1), plan[n - 1], budget)));
    }
  }

  /** Conservation in the chunks themselves: the texts of the chunks, each without its heading
      and the sentences it carries over, spell the visible body text of the book. */
  lemma {:induction false} ChunkTextConservation(
    pages: seq<Page>, printed: map<int, Option<int>>, maxTokens: int, budget: int)
    ensures var units := DocumentUnits(pages, printed);
            && |UnitChunks(units, maxTokens, budget)| == |BookPlan(units, maxTokens, budget)|
            && FreshTexts(units, maxTokens, budget, |UnitChunks(units, maxTokens, budget)|)
               == Visible(PagesBody(pages))
  {
    hide BookPlan, UnitChunks, FreshTexts, FreshAnchors, BookAnchors, DocumentUnits, Visible, PagesBody;
    var units := DocumentUnits(pages, printed);
    Conservation(units, maxTokens, budget);
    FreshTextsAre(units, maxTokens, budget, |UnitChunks(units, maxTokens, budget)|);
    VisibleConservation(pages, printed, maxTokens, budget);
  }

  // ---------------------------------------------------------------- headings of an oversized range

  /** Where a boundary range has more than `maxTokens` words, its chunks carry, at the first
      level finer than the primary one too, the latest heading before each of their
      sentences. */
  lemma {:induction false} FinerHeadingHolds(
    units: seq<Unit>, maxTokens: int, budget: int, p: Placed, k: nat)
    requires p in BookPlan(units, maxTokens, budget) && ValidPlaced(units, p)
    requires p.window.lo <= k < p.window.hi && SubLevels(PrimaryLevel(units)) != []
    requires var range := BoundaryRange(units, p.span.lo); BodyTokens(units, range.lo, range.hi) > maxTokens
    ensures var level := SubLevels(PrimaryLevel(units))[0];
            NameOf(ContextAt(units, p.span.lo), level)
            == LatestHeading(units, level, Owner(units, p.span.lo, p.span.hi, k))
  {
    hide BookPlan, PrimaryLevel, SubLevels, SpanSentences, IsBoundary, BodyTokens, NameOf, ContextAt,
      BoundaryBefore, BoundaryFrom, ChunkSpans, Plan;
    var level, lo, hi := SubLevels(PrimaryLevel(units))[0], p.span.lo, p.span.hi;
    var u := Owner(units, lo, hi, k);
    PlacedSpan(units, maxTokens, budget, p);
    NoBoundaryInside(units, maxTokens, budget, p);
    forall i | lo < i < hi
      ensures units[i].level != Some(level)
    {
      SameRange(units, lo, i);
      NoFinerHeadingInside(units, maxTokens, p.span, i);
    }
    NameIsLatest(units, lo, level);
    if lo < u { HeadingPersists(units, level, lo + 1, u); }
    if lo == u { assert units[lo].level == None; }
  }

  lemma {:induction false} NameIsLatest(units: seq<Unit>, lo: nat, level: Level)
    requires lo < |units|
    ensures NameOf(ContextAt(units, lo), level) == LatestHeading(units, level, lo + 1)
  {
  }

  lemma {:induction false} PlacedSpan(units: seq<Unit>, maxTokens: int, budget: int, p: Placed)
    requires p in BookPlan(units, maxTokens, budget)
    ensures p.span in ChunkSpans(units, maxTokens)
  {
    hide Plan, ChunkSpans;
    ChunkSpansValid(units, maxTokens);
    PlanSpans(units, ChunkSpans(units, maxTokens), maxTokens, budget);
  }

  /** Without a boundary in between, two units are in the same boundary range. */
  lemma {:induction false} SameRange(units: seq<Unit>, a: nat, b: nat)
    requires a <= b < |units|
    requires forall i :: a < i <= b ==> !IsBoundary(units, BoundaryLevels(PrimaryLevel(units)), i)
    ensures BoundaryRange(units, a) == BoundaryRange(units, b)
    decreases b - a
  {
    hide IsBoundary, PrimaryLevel;
    if a < b { SameRange(units, a, b - 1); }
  }
}
