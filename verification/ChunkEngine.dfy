/** `extract_chunks`: the stages composed, and the chunk records they yield. */
module ChunkEngine {
  import opened Sequences
  import opened Text
  import opened ChunkUnits
  import opened ChunkRanges
  import opened ChunkPacking
  import opened ChunkSentences
  import opened Ids

  const OVERLAP_FRACTION: real := 0.15

  datatype Chunk = Chunk(
    id: ChunkId,
    orderIndex: nat,
    printedPageStart: Option<int>,
    printedPageEnd: Option<int>,
    pdfPageStart: int,
    pdfPageEnd: int,
    context: Context,
    contextHeading: string,
    rawText: string,
    tokenCount: nat)

  // ---------------------------------------------------------------- chunk ids

  const DIGITS: string := "0123456789"

  /** `str` of a natural number. */
  function Decimal(n: nat): string {
    if n < 10 then [DIGITS[n]] else Decimal(n / 10) + [DIGITS[n % 10]]
  }

  /** The id hashes order index, colon and raw text. */
  function IdOf(order: nat, raw: string): ChunkId {
    Sha256(Decimal(order) + ":" + raw)
  }

  lemma {:induction false} DigitFacts(d: nat, e: nat)
    requires d < 10 && e < 10
    ensures DIGITS[d] != ':' && (DIGITS[d] == DIGITS[e] ==> d == e)
  {
  }

  lemma {:induction false} DecimalHasNoColon(n: nat)
    ensures Decimal(n) != [] && ':' !in Decimal(n)
  {
    DigitFacts(n % 10, 0);
    if n >= 10 { DecimalHasNoColon(n / 10); }
  }

  lemma {:induction false} DecimalInjective(m: nat, n: nat)
    requires Decimal(m) == Decimal(n)
    ensures m == n
  {
    DecimalHasNoColon(m / 10);
    DecimalHasNoColon(n / 10);
    assert Last(Decimal(m)) == DIGITS[m % 10] && Last(Decimal(n)) == DIGITS[n % 10];
    DigitFacts(m % 10, n % 10);
    assert |Decimal(m)| > 1 <==> m >= 10;
    assert |Decimal(n)| > 1 <==> n >= 10;
    if m >= 10 {
      assert Decimal(m / 10) == Decimal(m)[..|Decimal(m)| - 1] == Decimal(n)[..|Decimal(n)| - 1] == Decimal(n / 10);
      DecimalInjective(m / 10, n / 10);
    }
  }

  /** The colon ends the order index, so no two pairs of order index and text are hashed from
      the same string, whatever colons and digits the text has. */
  lemma {:induction false} IdsIdentify(m: nat, a: string, n: nat, b: string)
    ensures IdOf(m, a) == IdOf(n, b) <==> m == n && a == b
  {
    hide Decimal;
    DecimalHasNoColon(m);
    DecimalHasNoColon(n);
    var s, t := Decimal(m) + ":" + a, Decimal(n) + ":" + b;
    if s == t {
      assert s[|Decimal(m)|] == ':' && t[|Decimal(n)|] == ':';
      assert |Decimal(m)| == |Decimal(n)|;
      assert Decimal(m) == s[..|Decimal(m)|] == t[..|Decimal(n)|] == Decimal(n);
      assert a == s[|Decimal(m)| + 1..] == t[|Decimal(n)| + 1..] == b;
      DecimalInjective(m, n);
    }
  }

  // ---------------------------------------------------------------- one chunk

  function Separator(pack: seq<Sentence>, k: nat): string
    requires 0 < k < |pack|
  {
    if pack[k].unitKey != pack[k - 1].unitKey then "\n" else " "
  }

  /** The text of the first `n` sentences: a newline between units, a blank within one. */
  function JoinFirst(pack: seq<Sentence>, n: nat): string
    requires n <= |pack|
  {
    if n == 0 then ""
    else if n == 1 then pack[0].text
    else JoinFirst(pack, n - 1) + Separator(pack, n - 1) + pack[n - 1].text
  }

  function JoinBody(pack: seq<Sentence>): string { JoinFirst(pack, |pack|) }

  method JoinBodyLoop(pack: seq<Sentence>) returns (body: string)
    ensures body == JoinBody(pack)
  {
    body := "";
    var lastKey: Option<nat> := None;
    for i := 0 to |pack|
      invariant body == JoinFirst(pack, i)
      invariant lastKey == if i == 0 then None else Some(pack[i - 1].unitKey)
    {
      var sentence := pack[i];
      if lastKey == None {
        body := body + sentence.text;
      } else if sentence.unitKey != lastKey.value {
        body := body + "\n" + sentence.text;
      } else {
        body := body + " " + sentence.text;
      }
      lastKey := Some(sentence.unitKey);
    }
  }

  function Title(level: Level): string {
    match level
    case Kitab => "Kitab: "
    case Bab => "Bab: "
    case Fasl => "Fasl: "
    case Topic => "Topic: "
  }

  function NameOf(context: Context, level: Level): Option<string> {
    match level
    case Kitab => context[Kitab]
    case Bab => context[Bab]
    case Fasl => context[Fasl]
    case Topic => context[Topic]
  }

  /** One line for each of `levels` that has a name in force. */
  function HeadingLines(context: Context, levels: seq<Level>): seq<string> {
    if levels == [] then []
    else
      var name := NameOf(context, levels[0]);
      (if name.Some? && name.value != "" then [Title(levels[0]) + name.value] else [])
      + HeadingLines(context, levels[1..])
  }

  function JoinLines(lines: seq<string>): string {
    if lines == [] then ""
    else if |lines| == 1 then lines[0]
    else lines[0] + "\n" + JoinLines(lines[1..])
  }

  /** The parent headings, coarsest first; empty when there are none. */
  function ContextHeading(context: Context): string {
    JoinLines(HeadingLines(context, CONTEXT_KEYS))
  }

  function RawText(pack: seq<Sentence>, context: Context): string {
    var heading := ContextHeading(context);
    if heading == "" then JoinBody(pack) else heading + "\n\n" + JoinBody(pack)
  }

  function BuildChunk(pack: seq<Sentence>, context: Context, order: nat): Chunk
    requires pack != []
  {
    var raw := RawText(pack, context);
    Chunk(IdOf(order, raw), order, pack[0].printedPage, Last(pack).printedPage, pack[0].pdfPage,
          Last(pack).pdfPage, context, ContextHeading(context), raw, CountTokens(raw))
  }

  lemma {:induction false} AnchorsGrow(pack: seq<Sentence>, n: nat)
    requires 0 < n <= |pack|
    ensures AnchoredText(Anchors(pack[..n])) == AnchoredText(Anchors(pack[..n - 1])) + Visible(pack[n - 1].text)
  {
    hide Visible;
    assert Anchors(pack[..n])[..n - 1] == Anchors(pack[..n - 1]);
  }

  lemma {:induction false} GapIsBlank(pack: seq<Sentence>, k: nat)
    requires 0 < k < |pack|
    ensures |Separator(pack, k)| == 1 && IsSpace(Separator(pack, k)[0]) && Visible(Separator(pack, k)) == ""
  {
    SpaceFacts('.');
    assert Separator(pack, k)[1..] == "";
  }

  /** One more sentence adds its visible text and its words. */
  lemma {:induction false} JoinStep(before: string, gap: string, text: string)
    requires |gap| == 1 && IsSpace(gap[0]) && Visible(gap) == ""
    ensures Visible(before + gap + text) == Visible(before) + Visible(text)
    ensures CountTokens(before + gap + text) == CountTokens(before) + CountTokens(text)
  {
    hide Visible, CountTokens, IsSpace;
    assert gap == [gap[0]];
    TokensAcrossSpace(before, gap[0], text);
    VisibleConcat(before + gap, text);
    VisibleConcat(before, gap);
  }

  lemma {:induction false} JoinBase(pack: seq<Sentence>, n: nat)
    requires n <= |pack| && n <= 1
    ensures Visible(JoinFirst(pack, n)) == AnchoredText(Anchors(pack[..n]))
    ensures CountTokens(JoinFirst(pack, n)) == Tokens(pack, 0, n)
  {
    if n == 1 {
      AnchorsGrow(pack, 1);
      assert Tokens(pack, 0, 1) == Tokens(pack, 0, 0) + Cost(pack[0]);
    }
  }

  /** Joining adds only whitespace: the visible text is that of the sentences, and the word
      count of the body is exactly what the packer budgeted. */
  lemma {:induction false} JoinFacts(pack: seq<Sentence>, n: nat)
    requires n <= |pack|
    ensures Visible(JoinFirst(pack, n)) == AnchoredText(Anchors(pack[..n]))
    ensures CountTokens(JoinFirst(pack, n)) == Tokens(pack, 0, n)
  {
    hide Visible, CountTokens, Anchors, AnchoredText;
    if n <= 1 {
      JoinBase(pack, n);
    } else {
      JoinFacts(pack, n - 1);
      AnchorsGrow(pack, n);
      GapIsBlank(pack, n - 1);
      JoinStep(JoinFirst(pack, n - 1), Separator(pack, n - 1), pack[n - 1].text);
    }
  }

  // ---------------------------------------------------------------- all chunks

  predicate AllNonEmpty(packs: seq<seq<Sentence>>) {
    forall i :: 0 <= i < |packs| ==> packs[i] != []
  }

  function ChunksOf(packs: seq<seq<Sentence>>, context: Context, order: nat, n: nat): seq<Chunk>
    requires AllNonEmpty(packs) && n <= |packs|
  {
    if n == 0 then []
    else ChunksOf(packs, context, order, n - 1) + [BuildChunk(packs[n - 1], context, order + n - 1)]
  }

  lemma {:induction false} SlicesFacts(s: seq<Sentence>, windows: seq<Window>)
    requires InRange(s, windows)
    ensures |Slices(s, windows)| == |windows|
    ensures forall j :: 0 <= j < |windows| ==> Slices(s, windows)[j] == s[windows[j].lo..windows[j].hi]
  {
    if windows != [] { SlicesFacts(s, windows[1..]); }
  }

  /** The recursive guarantee, read off at every position. */
  lemma {:induction false} WellPackedIndexed(
    s: seq<Sentence>, windows: seq<Window>, prev: nat, maxTokens: int, budget: int)
    requires WellPacked(s, windows, prev, maxTokens, budget)
    ensures forall j :: 0 <= j < |windows| ==>
              Bounded(s, windows[j], if j == 0 then prev else windows[j - 1].hi, maxTokens)
    ensures forall j :: 0 < j < |windows| ==> Follows(s, windows[j - 1], windows[j], maxTokens, budget)
    ensures (if windows == [] then prev else Last(windows).hi) == |s|
    decreases |windows|
  {
    if windows != [] { WellPackedIndexed(s, windows[1..], windows[0].hi, maxTokens, budget); }
  }

  lemma {:induction false} PacksNonEmpty(s: seq<Sentence>, maxTokens: int, budget: int)
    ensures AllNonEmpty(Packs(s, maxTokens, budget))
  {
    var windows := Windows(s, 0, 0, maxTokens, budget);
    PackingIsWellPacked(s, maxTokens, budget);
    WellPackedIndexed(s, windows, 0, maxTokens, budget);
    SlicesFacts(s, windows);
    forall j | 0 <= j < |windows|
      ensures Slices(s, windows)[j] != []
    {
      assert Bounded(s, windows[j], if j == 0 then 0 else windows[j - 1].hi, maxTokens);
    }
  }

  function SpanChunks(units: seq<Unit>, span: Span, maxTokens: int, budget: int, order: nat): seq<Chunk>
    requires ValidSpan(units, span)
  {
    var packs := Packs(SpanSentences(units, span.lo, span.hi), maxTokens, budget);
    PacksNonEmpty(SpanSentences(units, span.lo, span.hi), maxTokens, budget);
    ChunksOf(packs, ContextAt(units, span.lo), order, |packs|)
  }

  predicate AllValidSpans(units: seq<Unit>, spans: seq<Span>) {
    forall s :: s in spans ==> ValidSpan(units, s)
  }

  /** The chunks of a list of ranges, numbered in order. */
  function SpansChunks(units: seq<Unit>, spans: seq<Span>, maxTokens: int, budget: int): seq<Chunk>
    requires AllValidSpans(units, spans)
  {
    if spans == [] then []
    else
      var before := SpansChunks(units, spans[..|spans| - 1], maxTokens, budget);
      before + SpanChunks(units, Last(spans), maxTokens, budget, |before|)
  }

  lemma {:induction false} ChunkSpansValid(units: seq<Unit>, maxTokens: int)
    ensures AllValidSpans(units, ChunkSpans(units, maxTokens))
    ensures AllValidSpans(units, BoundarySpans(units))
  {
    ChunkSpansPartition(units, maxTokens);
    ChainedBounds(ChunkSpans(units, maxTokens), 0, |units|);
    ChainedBounds(BoundarySpans(units), 0, |units|);
  }

  function UnitChunks(units: seq<Unit>, maxTokens: int, budget: int): seq<Chunk> {
    ChunkSpansValid(units, maxTokens);
    SpansChunks(units, ChunkSpans(units, maxTokens), maxTokens, budget)
  }

  function TokenLimit(maxTokens: int): int { Max(maxTokens, 1) }

  function OverlapShare(overlap: real): real {
    if 0.0 < overlap < 1.0 then overlap else OVERLAP_FRACTION
  }

  function OverlapBudget(maxTokens: int, overlap: real): int {
    OverlapTokens(TokenLimit(maxTokens), OverlapShare(overlap))
  }

  /** The chunks of a book. */
  function ExtractChunks(pages: seq<Page>, printed: map<int, Option<int>>, maxTokens: int, overlap: real): seq<Chunk> {
    UnitChunks(DocumentUnits(pages, printed), TokenLimit(maxTokens), OverlapBudget(maxTokens, overlap))
  }

  /** The settings used: at least one word per chunk, and an overlap of the given share of it when
      that is a share and of 15% otherwise, rounded down but at least one word. */
  lemma {:induction false} SettingsUsed(
    pages: seq<Page>, printed: map<int, Option<int>>, maxTokens: int, overlap: real) returns (budget: int)
    ensures ExtractChunks(pages, printed, maxTokens, overlap)
            == UnitChunks(DocumentUnits(pages, printed), if maxTokens >= 1 then maxTokens else 1, budget)
    ensures var words := (if maxTokens >= 1 then maxTokens else 1) as real
                         * (if 0.0 < overlap && overlap < 1.0 then overlap else 0.15);
            if words < 1.0 then budget == 1 else budget as real <= words < budget as real + 1.0
  {
    hide UnitChunks, DocumentUnits;
    budget := OverlapBudget(maxTokens, overlap);
    var limit := if maxTokens >= 1 then maxTokens else 1;
    var share := if 0.0 < overlap && overlap < 1.0 then overlap else 0.15;
    assert TokenLimit(maxTokens) == limit && OverlapShare(overlap) == share;
    assert budget == Max(1, (limit as real * share).Floor);
  }

  // ---------------------------------------------------------------- the loops

  method BuildChunkLoop(pack: seq<Sentence>, context: Context, order: nat) returns (chunk: Chunk)
    requires pack != []
    ensures chunk == BuildChunk(pack, context, order)
  {
    var body := JoinBodyLoop(pack);
    var heading := ContextHeading(context);
    var raw := if heading == "" then body else heading + "\n\n" + body;
    chunk := Chunk(IdOf(order, raw), order, pack[0].printedPage, Last(pack).printedPage,
                   pack[0].pdfPage, Last(pack).pdfPage, context, heading, raw, CountTokens(raw));
  }

  method BuildChunksLoop(packs: seq<seq<Sentence>>, context: Context, order: nat, chunks: seq<Chunk>)
    returns (r: seq<Chunk>)
    requires AllNonEmpty(packs)
    ensures r == chunks + ChunksOf(packs, context, order, |packs|)
  {
    hide BuildChunk;
    var added: seq<Chunk> := [];
    for i := 0 to |packs|
      invariant added == ChunksOf(packs, context, order, i)
    {
      var chunk := BuildChunkLoop(packs[i], context, order + i);
      added := added + [chunk];
    }
    r := chunks + added;
  }

  lemma {:induction false} BodylessRange(units: seq<Unit>, lo: nat, hi: nat)
    requires lo <= hi <= |units| && forall i :: lo <= i < hi ==> !units[i].IsBody()
    ensures SpanSentences(units, lo, hi) == []
    decreases hi - lo
  {
    if lo < hi { BodylessRange(units, lo, hi - 1); }
  }

  lemma {:induction false} BodylessTokens(units: seq<Unit>, lo: nat, hi: nat)
    requires lo <= hi <= |units| && forall i :: lo <= i < hi ==> !units[i].IsBody()
    ensures BodyTokens(units, lo, hi) == 0
    decreases hi - lo
  {
    if lo < hi { BodylessTokens(units, lo + 1, hi); }
  }

  /** A range without body text is not split and yields no chunk. */
  lemma {:induction false} BodylessSpan(units: seq<Unit>, span: Span, maxTokens: int, budget: int, order: nat)
    requires ValidSpan(units, span) && forall i :: span.lo <= i < span.hi ==> !units[i].IsBody()
    ensures SpanChunks(units, span, maxTokens, budget, order) == []
    ensures maxTokens >= 0 ==> forall levels :: SplitRange(units, span, maxTokens, levels) == [span]
  {
    BodylessRange(units, span.lo, span.hi);
    BodylessTokens(units, span.lo, span.hi);
    assert Windows([], 0, 0, maxTokens, budget) == [];
  }

  method SpanChunksLoop(units: seq<Unit>, span: Span, maxTokens: int, overlap: real, chunks: seq<Chunk>)
    returns (r: seq<Chunk>)
    requires ValidSpan(units, span)
    ensures r == chunks + SpanChunks(units, span, maxTokens, OverlapTokens(maxTokens, overlap), |chunks|)
  {
    if !exists i :: span.lo <= i < span.hi && units[i].IsBody() {
      BodylessSpan(units, span, maxTokens, OverlapTokens(maxTokens, overlap), |chunks|);
      return chunks;
    }
    var context := ContextAtLoop(units, span.lo);
    var sentences := FlattenSentencesLoop(units, span.lo, span.hi);
    var packs := SentencePackLoop(sentences, maxTokens, overlap);
    PacksNonEmpty(sentences, maxTokens, OverlapTokens(maxTokens, overlap));
    r := BuildChunksLoop(packs, context, |chunks|, chunks);
  }

  lemma {:induction false} SplitAllAppend(
    units: seq<Unit>, a: seq<Span>, span: Span, maxTokens: int, levels: seq<Level>)
    requires AllValidSpans(units, a) && ValidSpan(units, span)
    ensures SplitAll(units, a + [span], maxTokens, levels)
            == SplitAll(units, a, maxTokens, levels) + SplitRange(units, span, maxTokens, levels)
    decreases |a|
  {
    if a == [] {
      assert (a + [span])[1..] == [];
    } else {
      assert (a + [span])[1..] == a[1..] + [span];
      SplitAllAppend(units, a[1..], span, maxTokens, levels);
    }
  }

  lemma {:induction false} SpansChunksStep(units: seq<Unit>, spans: seq<Span>, span: Span, maxTokens: int, budget: int)
    requires AllValidSpans(units, spans) && ValidSpan(units, span)
    ensures AllValidSpans(units, spans + [span])
    ensures var before := SpansChunks(units, spans, maxTokens, budget);
            SpansChunks(units, spans + [span], maxTokens, budget)
            == before + SpanChunks(units, span, maxTokens, budget, |before|)
  {
    assert (spans + [span])[..|spans|] == spans;
  }

  /** The sub-ranges of one range, chunked one after the other. */
  method SubRangesLoop(
    units: seq<Unit>, pieces: seq<Span>, maxTokens: int, overlap: real, ghost before: seq<Span>, chunks: seq<Chunk>)
    returns (r: seq<Chunk>)
    requires AllValidSpans(units, pieces) && AllValidSpans(units, before)
    requires chunks == SpansChunks(units, before, maxTokens, OverlapTokens(maxTokens, overlap))
    ensures r == SpansChunks(units, before + pieces, maxTokens, OverlapTokens(maxTokens, overlap))
  {
    r := chunks;
    ghost var done := before;
    for i := 0 to |pieces|
      invariant done == before + pieces[..i] && AllValidSpans(units, done)
      invariant r == SpansChunks(units, done, maxTokens, OverlapTokens(maxTokens, overlap))
    {
      SpansChunksStep(units, done, pieces[i], maxTokens, OverlapTokens(maxTokens, overlap));
      r := SpanChunksLoop(units, pieces[i], maxTokens, overlap, r);
      AppendToPrefix(before, pieces, i);
      done := done + [pieces[i]];
    }
    assert pieces[..|pieces|] == pieces;
  }

  /** One boundary range: skipped when it holds no body text, else split and chunked. */
  method BoundaryRangeLoop(
    units: seq<Unit>, range: Span, maxTokens: int, overlap: real, levels: seq<Level>,
    ghost before: seq<Span>, chunks: seq<Chunk>)
    returns (r: seq<Chunk>)
    requires maxTokens >= 0 && ValidSpan(units, range) && AllValidSpans(units, before)
    requires chunks == SpansChunks(units, before, maxTokens, OverlapTokens(maxTokens, overlap))
    ensures AllValidSpans(units, before + SplitRange(units, range, maxTokens, levels))
    ensures r == SpansChunks(units, before + SplitRange(units, range, maxTokens, levels), maxTokens,
                             OverlapTokens(maxTokens, overlap))
  {
    SplitRangeChained(units, range, maxTokens, levels);
    ChainedBounds(SplitRange(units, range, maxTokens, levels), range.lo, range.hi);
    if exists i :: range.lo <= i < range.hi && units[i].IsBody() {
      var pieces := SplitRange(units, range, maxTokens, levels);
      r := SubRangesLoop(units, pieces, maxTokens, overlap, before, chunks);
    } else {
      r := chunks;
      BodylessSpan(units, range, maxTokens, OverlapTokens(maxTokens, overlap), |chunks|);
      SpansChunksStep(units, before, range, maxTokens, OverlapTokens(maxTokens, overlap));
    }
  }

  method BoundaryRangesLoop(
    units: seq<Unit>, ranges: seq<Span>, maxTokens: int, overlap: real, levels: seq<Level>)
    returns (chunks: seq<Chunk>)
    requires maxTokens >= 0 && AllValidSpans(units, ranges)
    ensures AllValidSpans(units, SplitAll(units, ranges, maxTokens, levels))
    ensures chunks == SpansChunks(units, SplitAll(units, ranges, maxTokens, levels), maxTokens,
                                  OverlapTokens(maxTokens, overlap))
  {
    chunks := [];
    ghost var done: seq<Span> := [];
    for i := 0 to |ranges|
      invariant AllValidSpans(units, done)
      invariant done == SplitAll(units, ranges[..i], maxTokens, levels)
      invariant chunks == SpansChunks(units, done, maxTokens, OverlapTokens(maxTokens, overlap))
    {
      SplitAllAppend(units, ranges[..i], ranges[i], maxTokens, levels);
      SliceAppend(ranges, 0, i);
      chunks := BoundaryRangeLoop(units, ranges[i], maxTokens, overlap, levels, done, chunks);
      done := done + SplitRange(units, ranges[i], maxTokens, levels);
    }
    assert ranges[..|ranges|] == ranges;
  }

  method ExtractChunksLoop(
    pages: seq<Page>, printed: map<int, Option<int>>, maxTokens: int, overlap: real)
    returns (chunks: seq<Chunk>)
    ensures chunks == ExtractChunks(pages, printed, maxTokens, overlap)
  {
    var units := DocumentUnits(pages, printed);
    var limit := TokenLimit(maxTokens);
    ChunkSpansValid(units, limit);
    if units == [] { return []; }
    var primary := PrimaryLevel(units);
    var starts := BoundaryStartsLoop(units, BoundaryLevels(primary));
    var ranges := RangesLoop(starts, |units|, 0);
    IncreasingListingUnique(starts, SortedSet(starts));
    chunks := BoundaryRangesLoop(units, ranges, limit, OverlapShare(overlap), SubLevels(primary));
  }
}
