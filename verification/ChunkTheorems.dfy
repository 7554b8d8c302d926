/** What the composed chunking engine guarantees about whole books. */
module ChunkTheorems {
  import opened Sequences
  import opened Text
  import opened ChunkUnits
  import opened ChunkRanges
  import opened ChunkPacking
  import opened ChunkSentences
  import opened ChunkEngine

  /** Where a chunk comes from: a window of the sentences of one range. */
  datatype Placed = Placed(span: Span, window: Window)

  predicate ValidPlaced(units: seq<Unit>, p: Placed) {
    && ValidSpan(units, p.span)
    && p.window.lo < p.window.hi <= |SpanSentences(units, p.span.lo, p.span.hi)|
  }

  /** The sentences of a chunk; none for a place outside the book. */
  function PackOf(units: seq<Unit>, p: Placed): seq<Sentence> {
    if ValidPlaced(units, p) then SpanSentences(units, p.span.lo, p.span.hi)[p.window.lo..p.window.hi] else []
  }

  function SpanWindows(units: seq<Unit>, span: Span, maxTokens: int, budget: int): seq<Window>
    requires ValidSpan(units, span)
  {
    Windows(SpanSentences(units, span.lo, span.hi), 0, 0, maxTokens, budget)
  }

  function PlacedIn(span: Span, windows: seq<Window>): seq<Placed> {
    seq(|windows|, j requires 0 <= j < |windows| => Placed(span, windows[j]))
  }

  /** Provenance of the chunks of a list of ranges, in chunk order. */
  function Plan(units: seq<Unit>, spans: seq<Span>, maxTokens: int, budget: int): seq<Placed>
    requires AllValidSpans(units, spans)
  {
    if spans == [] then []
    else Plan(units, spans[..|spans| - 1], maxTokens, budget)
         + PlacedIn(Last(spans), SpanWindows(units, Last(spans), maxTokens, budget))
  }

  /** Chunk number `k` is built from the sentences at `p` and the headings where its range
      starts. */
  predicate ExplainsAt(units: seq<Unit>, p: Placed, chunk: Chunk, k: nat) {
    ValidPlaced(units, p) && chunk == BuildChunk(PackOf(units, p), ContextAt(units, p.span.lo), k)
  }

  predicate Explains(units: seq<Unit>, plan: seq<Placed>, chunks: seq<Chunk>) {
    |plan| == |chunks| && forall k :: 0 <= k < |plan| ==> ExplainsAt(units, plan[k], chunks[k], k)
  }

  lemma {:induction false} ChunksLength(packs: seq<seq<Sentence>>, context: Context, order: nat, n: nat)
    requires AllNonEmpty(packs) && n <= |packs|
    ensures |ChunksOf(packs, context, order, n)| == n
  {
    hide BuildChunk;
    if n > 0 { ChunksLength(packs, context, order, n - 1); }
  }

  lemma {:induction false} ChunkAt(packs: seq<seq<Sentence>>, context: Context, order: nat, n: nat, k: nat)
    requires AllNonEmpty(packs) && k < n <= |packs|
    ensures |ChunksOf(packs, context, order, n)| == n
    ensures ChunksOf(packs, context, order, n)[k] == BuildChunk(packs[k], context, order + k)
  {
    hide BuildChunk;
    ChunksLength(packs, context, order, n - 1);
    if k < n - 1 { ChunkAt(packs, context, order, n - 1, k); }
  }

  /** Where the sentences covered by the first `j` windows of a range end. */
  function CoveredEnd(windows: seq<Window>, j: nat): nat
    requires j <= |windows|
  {
    if j == 0 then 0 else windows[j - 1].hi
  }

  lemma {:induction false} WindowAt(s: seq<Sentence>, windows: seq<Window>, maxTokens: int, budget: int, j: nat)
    requires windows == Windows(s, 0, 0, maxTokens, budget) && j < |windows|
    ensures Bounded(s, windows[j], CoveredEnd(windows, j), maxTokens)
    ensures j > 0 ==> Follows(s, windows[j - 1], windows[j], maxTokens, budget)
  {
    hide Windows, Bounded, Follows;
    PackingIsWellPacked(s, maxTokens, budget);
    WellPackedIndexed(s, windows, 0, maxTokens, budget);
  }

  lemma {:induction false} PlacedIsValid(units: seq<Unit>, span: Span, maxTokens: int, budget: int, j: nat)
    requires ValidSpan(units, span) && j < |SpanWindows(units, span, maxTokens, budget)|
    ensures ValidPlaced(units, Placed(span, SpanWindows(units, span, maxTokens, budget)[j]))
  {
    WindowAt(SpanSentences(units, span.lo, span.hi), SpanWindows(units, span, maxTokens, budget), maxTokens, budget, j);
  }

  lemma {:induction false} PackAt(s: seq<Sentence>, maxTokens: int, budget: int, j: nat)
    requires j < |Windows(s, 0, 0, maxTokens, budget)|
    ensures var w := Windows(s, 0, 0, maxTokens, budget)[j];
            && w.lo <= w.hi <= |s| && AllNonEmpty(Packs(s, maxTokens, budget))
            && |Packs(s, maxTokens, budget)| == |Windows(s, 0, 0, maxTokens, budget)|
            && Packs(s, maxTokens, budget)[j] == s[w.lo..w.hi]
  {
    WindowAt(s, Windows(s, 0, 0, maxTokens, budget), maxTokens, budget, j);
    PacksNonEmpty(s, maxTokens, budget);
    SlicesFacts(s, Windows(s, 0, 0, maxTokens, budget));
  }

  lemma {:induction false} SpanExplains(units: seq<Unit>, span: Span, maxTokens: int, budget: int, order: nat, k: nat)
    requires ValidSpan(units, span) && k < |SpanWindows(units, span, maxTokens, budget)|
    ensures k < |SpanChunks(units, span, maxTokens, budget, order)|
    ensures ExplainsAt(units, Placed(span, SpanWindows(units, span, maxTokens, budget)[k]),
                       SpanChunks(units, span, maxTokens, budget, order)[k], order + k)
  {
    hide BuildChunk, Windows, SpanSentences;
    var s := SpanSentences(units, span.lo, span.hi);
    PlacedIsValid(units, span, maxTokens, budget, k);
    PackAt(s, maxTokens, budget, k);
    var packs := Packs(s, maxTokens, budget);
    ChunkAt(packs, ContextAt(units, span.lo), order, |packs|, k);
  }

  lemma {:induction false} SpanChunksLength(units: seq<Unit>, span: Span, maxTokens: int, budget: int, order: nat)
    requires ValidSpan(units, span)
    ensures |SpanChunks(units, span, maxTokens, budget, order)| == |SpanWindows(units, span, maxTokens, budget)|
  {
    var s := SpanSentences(units, span.lo, span.hi);
    var packs := Packs(s, maxTokens, budget);
    PacksNonEmpty(s, maxTokens, budget);
    SlicesFacts(s, Windows(s, 0, 0, maxTokens, budget));
    ChunksLength(packs, ContextAt(units, span.lo), order, |packs|);
  }

  lemma {:induction false} PlanExplains(units: seq<Unit>, spans: seq<Span>, maxTokens: int, budget: int)
    requires AllValidSpans(units, spans)
    ensures Explains(units, Plan(units, spans, maxTokens, budget), SpansChunks(units, spans, maxTokens, budget))
  {
    hide ExplainsAt, BuildChunk, Windows, SpanChunks;
    if spans != [] {
      var init, span := spans[..|spans| - 1], Last(spans);
      PlanExplains(units, init, maxTokens, budget);
      var before, first := SpansChunks(units, init, maxTokens, budget), Plan(units, init, maxTokens, budget);
      var windows := SpanWindows(units, span, maxTokens, budget);
      SpanChunksLength(units, span, maxTokens, budget, |before|);
      forall k | 0 <= k < |windows|
        ensures ExplainsAt(units, PlacedIn(span, windows)[k],
                           SpanChunks(units, span, maxTokens, budget, |before|)[k], |before| + k)
      {
        SpanExplains(units, span, maxTokens, budget, |before|, k);
      }
      ExplainsAppend(units, first, before, PlacedIn(span, windows),
                     SpanChunks(units, span, maxTokens, budget, |before|));
    }
  }

  lemma {:induction false} ExplainsAppend(
    units: seq<Unit>, plan: seq<Placed>, chunks: seq<Chunk>, morePlan: seq<Placed>, more: seq<Chunk>)
    requires Explains(units, plan, chunks) && |morePlan| == |more|
    requires forall k :: 0 <= k < |more| ==> ExplainsAt(units, morePlan[k], more[k], |chunks| + k)
    ensures Explains(units, plan + morePlan, chunks + more)
  {
    hide ExplainsAt, BuildChunk;
    forall k | 0 <= k < |chunks + more|
      ensures ExplainsAt(units, (plan + morePlan)[k], (chunks + more)[k], k)
    {
      if k >= |chunks| { assert ExplainsAt(units, morePlan[k - |chunks|], more[k - |chunks|], k); }
    }
  }

  /** The provenance of every chunk of a book. */
  function BookPlan(units: seq<Unit>, maxTokens: int, budget: int): seq<Placed> {
    ChunkSpansValid(units, maxTokens);
    Plan(units, ChunkSpans(units, maxTokens), maxTokens, budget)
  }

  predicate SpansIn(units: seq<Unit>, plan: seq<Placed>, spans: seq<Span>) {
    forall k :: 0 <= k < |plan| ==> plan[k].span in spans && ValidPlaced(units, plan[k])
  }

  lemma {:induction false} PlanSpans(units: seq<Unit>, spans: seq<Span>, maxTokens: int, budget: int)
    requires AllValidSpans(units, spans)
    ensures SpansIn(units, Plan(units, spans, maxTokens, budget), spans)
  {
    if spans != [] {
      var init, span := spans[..|spans| - 1], Last(spans);
      PlanSpans(units, init, maxTokens, budget);
      var first, windows := Plan(units, init, maxTokens, budget), SpanWindows(units, span, maxTokens, budget);
      assert spans == init + [span];
      forall k | 0 <= k < |first + PlacedIn(span, windows)|
        ensures (first + PlacedIn(span, windows))[k].span in spans
        ensures ValidPlaced(units, (first + PlacedIn(span, windows))[k])
      {
        if k < |first| {
          assert first[k].span in init;
        } else {
          PlacedIsValid(units, span, maxTokens, budget, k - |first|);
        }
      }
    }
  }

  // ---------------------------------------------------------------- conservation

  /** What a chunk adds: its pack without the sentences it starts with that were carried over
      from the previous chunk of the same range. */
  function FreshPart(units: seq<Unit>, previous: Option<Placed>, p: Placed, budget: int): seq<Sentence> {
    var pack := PackOf(units, p);
    if previous.Some? && previous.value.span == p.span then
      var carried := Carried(PackOf(units, previous.value), budget);
      if carried <= pack then pack[|carried|..] else []
    else pack
  }

  function Before(plan: seq<Placed>, k: nat): Option<Placed>
    requires k < |plan|
  {
    if k > 0 then Some(plan[k - 1]) else None
  }

  /** The fresh parts of the first `n` chunks, as sentences with their pages. */
  function FreshAnchors(units: seq<Unit>, plan: seq<Placed>, n: nat, budget: int): seq<Anchor>
    requires n <= |plan|
  {
    if n == 0 then []
    else FreshAnchors(units, plan, n - 1, budget)
         + Anchors(FreshPart(units, Before(plan, n - 1), plan[n - 1], budget))
  }

  lemma {:induction false} FreshPrefix(units: seq<Unit>, plan: seq<Placed>, more: seq<Placed>, n: nat, budget: int)
    requires n <= |plan|
    ensures FreshAnchors(units, plan + more, n, budget) == FreshAnchors(units, plan, n, budget)
  {
    if n > 0 {
      FreshPrefix(units, plan, more, n - 1, budget);
      assert Before(plan + more, n - 1) == Before(plan, n - 1);
    }
  }

  /** What neighbouring windows share is what the code carries over. */
  lemma {:induction false} CarriedIsShared(s: seq<Sentence>, w: Window, next: Window, maxTokens: int, budget: int)
    requires Follows(s, w, next, maxTokens, budget)
    ensures Carried(s[w.lo..w.hi], budget) == s[next.lo..w.hi]
  {
    hide Carried, Tokens, Cost;
    CarriedSlice(s, w.lo, w.hi, budget);
    TailIsLongestFit(s, w.lo, w.hi, w.hi, budget);
    var t := Window(TailStart(s, w.lo, w.hi, w.hi, budget), next.hi);
    NextStartForced(s, w, t, next, maxTokens, budget);
    NextStartForced(s, w, next, t, maxTokens, budget);
  }

  lemma {:induction false} FreshAfter(s: seq<Sentence>, w: Window, next: Window, maxTokens: int, budget: int)
    requires Follows(s, w, next, maxTokens, budget)
    ensures var carried := Carried(s[w.lo..w.hi], budget);
            carried <= s[next.lo..next.hi] && s[next.lo..next.hi][|carried|..] == s[w.hi..next.hi]
  {
    hide Carried, Tokens, Cost;
    CarriedIsShared(s, w, next, maxTokens, budget);
    DropOfSlice(s, next.lo, next.hi, w.hi - next.lo);
  }

  /** Window j of a range adds the sentences after the end of window j - 1. */
  lemma {:induction false} FreshOfWindow(
    units: seq<Unit>, previous: Option<Placed>, span: Span, windows: seq<Window>, maxTokens: int, budget: int, j: nat)
    requires ValidSpan(units, span) && windows == SpanWindows(units, span, maxTokens, budget) && j < |windows|
    requires j > 0 ==> previous == Some(Placed(span, windows[j - 1]))
    requires j == 0 ==> previous.None? || previous.value.span != span
    ensures var s := SpanSentences(units, span.lo, span.hi);
            && CoveredEnd(windows, j) <= windows[j].hi <= |s|
            && FreshPart(units, previous, Placed(span, windows[j]), budget)
               == s[CoveredEnd(windows, j)..windows[j].hi]
  {
    hide Windows, Carried, SpanSentences;
    var s := SpanSentences(units, span.lo, span.hi);
    WindowAt(s, windows, maxTokens, budget, j);
    PlacedIsValid(units, span, maxTokens, budget, j);
    if j > 0 {
      PlacedIsValid(units, span, maxTokens, budget, j - 1);
      FreshAfter(s, windows[j - 1], windows[j], maxTokens, budget);
    } else {
      PackingIsWellPacked(s, maxTokens, budget);
    }
  }

  lemma {:induction false} AnchorsExtend(base: seq<Anchor>, s: seq<Sentence>, start: nat, end: nat)
    requires start <= end <= |s|
    ensures base + Anchors(s[..start]) + Anchors(s[start..end]) == base + Anchors(s[..end])
  {
    hide Anchors;
    assert s[..end] == s[..start] + s[start..end];
    AnchorsConcat(s[..start], s[start..end]);
  }

  /** The chunks from `base` on are those of one range, and the one before is of another. */
  predicate OwnFrom(all: seq<Placed>, base: nat, span: Span, windows: seq<Window>) {
    && base + |windows| == |all|
    && (forall i :: 0 <= i < |windows| ==> all[base + i] == Placed(span, windows[i]))
    && (base > 0 ==> all[base - 1].span != span)
  }

  /** Within one range the fresh parts add up to its sentences so far. */
  lemma {:induction false} FreshWithinSpan(
    units: seq<Unit>, all: seq<Placed>, base: nat, span: Span, s: seq<Sentence>, windows: seq<Window>,
    maxTokens: int, budget: int, j: nat)
    requires ValidSpan(units, span) && windows == SpanWindows(units, span, maxTokens, budget)
    requires s == SpanSentences(units, span.lo, span.hi)
    requires OwnFrom(all, base, span, windows) && j <= |windows|
    ensures CoveredEnd(windows, j) <= |s|
    ensures FreshAnchors(units, all, base + j, budget)
            == FreshAnchors(units, all, base, budget) + Anchors(s[..CoveredEnd(windows, j)])
  {
    hide FreshPart, SpanWindows, SpanSentences;
    if j == 0 {
      assert Anchors(s[..0]) == [];
    } else {
      FreshWithinSpan(units, all, base, span, s, windows, maxTokens, budget, j - 1);
      assert all[base + (j - 1)] == Placed(span, windows[j - 1]);
      if j > 1 { assert all[base + (j - 2)] == Placed(span, windows[j - 2]); }
      FreshOfWindow(units, Before(all, base + (j - 1)), span, windows, maxTokens, budget, j - 1);
      AnchorsExtend(FreshAnchors(units, all, base, budget), s, CoveredEnd(windows, j - 1), CoveredEnd(windows, j));
    }
  }

  lemma {:induction false} SpanCovered(s: seq<Sentence>, maxTokens: int, budget: int)
    ensures var windows := Windows(s, 0, 0, maxTokens, budget); CoveredEnd(windows, |windows|) == |s|
  {
    PackingIsWellPacked(s, maxTokens, budget);
    WellPackedIndexed(s, Windows(s, 0, 0, maxTokens, budget), 0, maxTokens, budget);
  }

  predicate NoneFrom(plan: seq<Placed>, span: Span) {
    forall k :: 0 <= k < |plan| ==> plan[k].span != span
  }

  /** One more range adds exactly the sentences of its body units. */
  lemma {:induction false} FreshAppendSpan(
    units: seq<Unit>, plan: seq<Placed>, span: Span, maxTokens: int, budget: int)
    requires ValidSpan(units, span) && NoneFrom(plan, span)
    ensures var all := plan + PlacedIn(span, SpanWindows(units, span, maxTokens, budget));
            FreshAnchors(units, all, |all|, budget)
            == FreshAnchors(units, plan, |plan|, budget) + BookAnchors(units, span.lo, span.hi)
  {
    hide Windows, FreshPart, SpanSentences, Anchors, BookAnchors, FreshAnchors;
    var windows, s := SpanWindows(units, span, maxTokens, budget), SpanSentences(units, span.lo, span.hi);
    var own := PlacedIn(span, windows);
    FreshPrefix(units, plan, own, |plan|, budget);
    FreshWithinSpan(units, plan + own, |plan|, span, s, windows, maxTokens, budget, |windows|);
    SpanCovered(s, maxTokens, budget);
    assert s[..|s|] == s;
    SpanAnchors(units, span.lo, span.hi);
  }

  lemma {:induction false} FreshOfSpans(
    units: seq<Unit>, spans: seq<Span>, maxTokens: int, budget: int, hi: nat)
    requires AllValidSpans(units, spans) && Chained(spans, 0, hi) && hi <= |units|
    ensures var plan := Plan(units, spans, maxTokens, budget);
            FreshAnchors(units, plan, |plan|, budget) == BookAnchors(units, 0, hi)
    decreases |spans|
  {
    hide FreshPart, Windows, Anchors;
    if spans != [] {
      var init, span := spans[..|spans| - 1], Last(spans);
      ChainedInit(spans, 0, hi);
      assert span in spans;
      FreshOfSpans(units, init, maxTokens, budget, span.lo);
      EarlierSpans(units, init, span, maxTokens, budget);
      FreshAppendSpan(units, Plan(units, init, maxTokens, budget), span, maxTokens, budget);
      BookAnchorsSplit(units, 0, span.lo, hi);
    }
  }

  lemma {:induction false} EarlierSpans(units: seq<Unit>, init: seq<Span>, span: Span, maxTokens: int, budget: int)
    requires AllValidSpans(units, init) && Chained(init, 0, span.lo) && span.lo < span.hi
    ensures NoneFrom(Plan(units, init, maxTokens, budget), span)
  {
    PlanSpans(units, init, maxTokens, budget);
    ChainedBounds(init, 0, span.lo);
  }

  lemma {:induction false} ChainedInit(spans: seq<Span>, lo: nat, hi: nat)
    requires Chained(spans, lo, hi) && spans != []
    ensures Last(spans).hi == hi && Chained(spans[..|spans| - 1], lo, Last(spans).lo)
  {
    if |spans| > 1 {
      ChainedInit(spans[1..], spans[0].hi, hi);
      assert spans[..|spans| - 1][1..] == spans[1..][..|spans| - 2];
    }
  }

  /** Conservation: deleting from each chunk what it carried over from the previous chunk of
      its range leaves exactly the sentences of all body units, in order, none lost,
      reordered or repeated. */
  lemma {:induction false} Conservation(units: seq<Unit>, maxTokens: int, budget: int)
    ensures var plan := BookPlan(units, maxTokens, budget);
            && Explains(units, plan, UnitChunks(units, maxTokens, budget))
            && FreshAnchors(units, plan, |plan|, budget) == BookAnchors(units, 0, |units|)
  {
    hide Plan, FreshAnchors, BookAnchors, ChunkSpans, SpansChunks;
    ChunkSpansValid(units, maxTokens);
    ChunkSpansPartition(units, maxTokens);
    PlanExplains(units, ChunkSpans(units, maxTokens), maxTokens, budget);
    FreshOfSpans(units, ChunkSpans(units, maxTokens), maxTokens, budget, |units|);
  }

  lemma {:induction false} UnitsConservation(units: seq<Unit>, maxTokens: int, budget: int)
    ensures var plan := BookPlan(units, maxTokens, budget);
            AnchoredText(FreshAnchors(units, plan, |plan|, budget)) == Visible(UnitsBody(units))
  {
    hide Plan, FreshAnchors, BookAnchors, ChunkSpans;
    Conservation(units, maxTokens, budget);
    BookAnchorsConserve(units, |units|);
    assert units[..|units|] == units;
  }

  /** Conservation to the character: the fresh parts of the chunks spell the visible text of
      the body blocks of all pages. */
  lemma {:induction false} VisibleConservation(
    pages: seq<Page>, printed: map<int, Option<int>>, maxTokens: int, budget: int)
    ensures var units := DocumentUnits(pages, printed);
            var plan := BookPlan(units, maxTokens, budget);
            AnchoredText(FreshAnchors(units, plan, |plan|, budget)) == Visible(PagesBody(pages))
  {
    UnitsConservation(DocumentUnits(pages, printed), maxTokens, budget);
    DocumentUnitsConserve(pages, printed);
  }

  // ---------------------------------------------------------------- page rule

  /** A unit that is the last of its page, is body text and ends in mid-sentence. */
  predicate UnfinishedPageEnd(units: seq<Unit>, u: nat) {
    && u + 1 < |units|
    && units[u].pdfPage != units[u + 1].pdfPage
    && units[u].IsBody()
    && !units[u].endsSentence
  }

  /** No break inside the range, and only headings between two body units of different
      pages: the first one is an unfinished page end. */
  lemma {:induction false} BreakIsUnfinished(units: seq<Unit>, levels: set<Level>, u: nat, v: nat)
    requires PagesOrdered(units) && u < v < |units|
    requires units[u].IsBody() && units[u].pdfPage != units[v].pdfPage
    requires forall x :: u < x < v ==> !units[x].IsBody()
    requires forall x :: u < x <= v ==> !IsBoundary(units, levels, x)
    ensures UnfinishedPageEnd(units, u)
    decreases v - u
  {
    if units[v - 1].pdfPage != units[v].pdfPage {
      AdjacentUnitDecides(units, v);
      assert !IsBoundary(units, levels, v);
    } else {
      BreakIsUnfinished(units, levels, u, v - 1);
    }
  }

  /** Sentences `k` and `k + 1` of a range come from different PDF pages only where the first
      is the tail of the last unit of its page and does not end in sentence-final
      punctuation. */
  predicate BreaksUnfinished(units: seq<Unit>, p: Placed, k: nat)
    requires ValidPlaced(units, p) && p.window.lo <= k && k + 1 < p.window.hi
  {
    var s := SpanSentences(units, p.span.lo, p.span.hi);
    s[k].pdfPage != s[k + 1].pdfPage ==>
      var u := Owner(units, p.span.lo, p.span.hi, k);
      && UnfinishedPageEnd(units, u)
      && s[k].pdfPage == units[u].pdfPage
      && SplitSentences(units[u].text) != []
      && s[k].text == Last(SplitSentences(units[u].text))
      && s[k].text != "" && !IsFinal(Last(s[k].text))
  }

  /** Page rule: neighbouring sentences of one chunk from different PDF pages. */
  lemma {:induction false} PageRule(units: seq<Unit>, maxTokens: int, budget: int, p: Placed, k: nat)
    requires AllValid(units) && PagesOrdered(units)
    requires p in BookPlan(units, maxTokens, budget)
    requires p.window.lo <= k && k + 1 < p.window.hi
    ensures ValidPlaced(units, p) && BreaksUnfinished(units, p, k)
  {
    hide SpanSentences, SplitSentences, BookPlan, PrimaryLevel, BoundaryLevels;
    NoBoundaryInside(units, maxTokens, budget, p);
    var lo, hi := p.span.lo, p.span.hi;
    var s := SpanSentences(units, lo, hi);
    if s[k].pdfPage != s[k + 1].pdfPage {
      PageBreakOwners(units, lo, hi, k);
      OwnerFacts(units, lo, hi, k);
      OwnerFacts(units, lo, hi, k + 1);
      var u, v := Owner(units, lo, hi, k), Owner(units, lo, hi, k + 1);
      BreakIsUnfinished(units, BoundaryLevels(PrimaryLevel(units)), u, v);
      SplitSentencesTail(units[u].text);
    }
  }

  /** The page rule for a book: pages in strictly increasing number order satisfy what it asks
      of the units. */
  lemma {:induction false} PageRuleOfBook(
    pages: seq<Page>, printed: map<int, Option<int>>, maxTokens: int, budget: int, p: Placed, k: nat)
    requires PagesIncrease(pages)
    requires p in BookPlan(DocumentUnits(pages, printed), maxTokens, budget)
    requires p.window.lo <= k && k + 1 < p.window.hi
    ensures var units := DocumentUnits(pages, printed);
            ValidPlaced(units, p) && BreaksUnfinished(units, p, k)
  {
    DocumentUnitsFacts(pages, printed);
    PageRule(DocumentUnits(pages, printed), maxTokens, budget, p, k);
  }

  // ---------------------------------------------------------------- section context

  /** The range of a chunk lies between boundaries. */
  lemma {:induction false} NoBoundaryInside(units: seq<Unit>, maxTokens: int, budget: int, p: Placed)
    requires p in BookPlan(units, maxTokens, budget)
    ensures ValidPlaced(units, p)
    ensures forall i :: p.span.lo < i < p.span.hi ==> !IsBoundary(units, BoundaryLevels(PrimaryLevel(units)), i)
  {
    hide Plan, Windows, SpanSentences, ChunkSpans, IsBoundary;
    ChunkSpansValid(units, maxTokens);
    ChunkSpansPartition(units, maxTokens);
    PlanSpans(units, ChunkSpans(units, maxTokens), maxTokens, budget);
    assert p.span in ChunkSpans(units, maxTokens);
  }

  lemma {:induction false} HeadingHolds(units: seq<Unit>, levels: set<Level>, level: Level, lo: nat, u: nat)
    requires lo <= u < |units| && units[u].IsBody() && level in levels
    requires forall i :: lo < i < u ==> !IsBoundary(units, levels, i)
    ensures NameOf(ContextAt(units, lo), level) == LatestHeading(units, level, u)
  {
    forall i | lo + 1 <= i < u
      ensures units[i].level != Some(level)
    {
      assert !IsBoundary(units, levels, i);
    }
    if lo < u { HeadingPersists(units, level, lo + 1, u); }
  }

  /** Section context: at the primary level and every coarser one, the heading a chunk
      carries is the latest heading of that level before each of its sentences. */
  lemma {:induction false} SectionContext(
    units: seq<Unit>, maxTokens: int, budget: int, p: Placed, k: nat, level: Level)
    requires p in BookPlan(units, maxTokens, budget)
    requires p.window.lo <= k < p.window.hi
    requires level in BoundaryLevels(PrimaryLevel(units))
    ensures ValidPlaced(units, p)
    ensures NameOf(ContextAt(units, p.span.lo), level)
            == LatestHeading(units, level, Owner(units, p.span.lo, p.span.hi, k))
  {
    hide SpanSentences, IsBoundary, BookPlan, NameOf, ContextAt, BoundaryLevels, PrimaryLevel;
    NoBoundaryInside(units, maxTokens, budget, p);
    HeadingHolds(units, BoundaryLevels(PrimaryLevel(units)), level, p.span.lo,
                 Owner(units, p.span.lo, p.span.hi, k));
  }

  /** The last heading of `level` among units `a..b`. */
  function HeadingWithin(units: seq<Unit>, level: Level, a: nat, b: nat): Option<string>
    requires a <= b <= |units|
  {
    if a == b then None
    else if units[b - 1].level == Some(level) then Some(units[b - 1].text)
    else HeadingWithin(units, level, a, b - 1)
  }

  lemma {:induction false} LatestSplits(units: seq<Unit>, level: Level, a: nat, b: nat)
    requires a <= b <= |units|
    ensures LatestHeading(units, level, b)
            == if HeadingWithin(units, level, a, b).Some? then HeadingWithin(units, level, a, b)
               else LatestHeading(units, level, a)
    decreases b - a
  {
    if a < b { LatestSplits(units, level, a, b - 1); }
  }

  /** The heading in force at `lo` is the latest before `u` exactly when there is no heading of
      the level in between, or the last one there has the same text. */
  predicate CarriedUnlessReplaced(units: seq<Unit>, level: Level, lo: nat, u: nat)
    requires lo <= u < |units|
  {
    var carried := NameOf(ContextAt(units, lo), level);
    var within := HeadingWithin(units, level, Min(lo + 1, u), u);
    carried == LatestHeading(units, level, u) <==> within.None? || within == carried
  }

  lemma {:induction false} CarriedOrWithin(units: seq<Unit>, level: Level, lo: nat, u: nat)
    requires lo <= u < |units| && units[u].IsBody()
    ensures CarriedUnlessReplaced(units, level, lo, u)
  {
    LatestSplits(units, level, Min(lo + 1, u), u);
  }

  lemma {:induction false} PlacedInBook(units: seq<Unit>, maxTokens: int, budget: int, p: Placed)
    requires p in BookPlan(units, maxTokens, budget)
    ensures ValidPlaced(units, p)
  {
    ChunkSpansValid(units, maxTokens);
    PlanSpans(units, ChunkSpans(units, maxTokens), maxTokens, budget);
  }

  /** At any level, finer ones included, the heading a chunk carries is the latest one before a
      sentence exactly when its range has no other heading of that level up to the sentence:
      chunks keep the headings of the start of their range. */
  lemma {:induction false} ContextAtAnyLevel(
    units: seq<Unit>, maxTokens: int, budget: int, p: Placed, k: nat, level: Level)
    requires p in BookPlan(units, maxTokens, budget)
    requires p.window.lo <= k < p.window.hi
    ensures ValidPlaced(units, p)
    ensures CarriedUnlessReplaced(units, level, p.span.lo, Owner(units, p.span.lo, p.span.hi, k))
  {
    PlacedInBook(units, maxTokens, budget, p);
    CarriedOrWithin(units, level, p.span.lo, Owner(units, p.span.lo, p.span.hi, k));
  }

  // ---------------------------------------------------------------- headings left standing

  /** Where the latest heading of `level` among the first `n` units is. */
  function LatestIndex(units: seq<Unit>, level: Level, n: nat): (at: Option<nat>)
    requires n <= |units|
    ensures at.Some? ==> at.value < n && units[at.value].level == Some(level)
    ensures forall i :: (if at.Some? then at.value + 1 else 0) <= i < n ==> units[i].level != Some(level)
  {
    if n == 0 then None
    else if units[n - 1].level == Some(level) then Some(n - 1)
    else LatestIndex(units, level, n - 1)
  }

  lemma {:induction false} LatestHeadingIsAt(units: seq<Unit>, level: Level, n: nat)
    requires n <= |units|
    ensures var at := LatestIndex(units, level, n);
            LatestHeading(units, level, n) == if at.Some? then Some(units[at.value].text) else None
  {
    if n > 0 && units[n - 1].level != Some(level) { LatestHeadingIsAt(units, level, n - 1); }
  }

  lemma {:induction false} UnitHasSentences(units: seq<Unit>, lo: nat, hi: nat, u: nat)
    requires lo <= u < hi <= |units| && units[u].IsBody() && SplitSentences(units[u].text) != []
    ensures SpanSentences(units, lo, hi) != []
    decreases hi
  {
    hide SplitSentences;
    if u < hi - 1 { UnitHasSentences(units, lo, hi - 1, u); }
  }

  lemma {:induction false} SpanHasChunk(
    units: seq<Unit>, spans: seq<Span>, maxTokens: int, budget: int, j: nat) returns (n: nat)
    requires AllValidSpans(units, spans) && j < |spans| && ValidSpan(units, spans[j])
    requires SpanSentences(units, spans[j].lo, spans[j].hi) != []
    ensures n < |Plan(units, spans, maxTokens, budget)| && Plan(units, spans, maxTokens, budget)[n].span == spans[j]
  {
    hide Windows, SpanSentences;
    var init, span := spans[..|spans| - 1], Last(spans);
    assert spans == init + [span];
    assert span in spans;
    if j < |init| {
      n := SpanHasChunk(units, init, maxTokens, budget, j);
    } else {
      PackingIsWellPacked(SpanSentences(units, span.lo, span.hi), maxTokens, budget);
      n := |Plan(units, init, maxTokens, budget)|;
    }
  }

  lemma {:induction false} UnitHasChunk(units: seq<Unit>, maxTokens: int, budget: int, u: nat) returns (n: nat)
    requires u < |units| && units[u].IsBody() && SplitSentences(units[u].text) != []
    ensures n < |BookPlan(units, maxTokens, budget)|
    ensures var span := BookPlan(units, maxTokens, budget)[n].span; span.lo <= u < span.hi <= |units|
  {
    hide Plan, SplitSentences, SpanSentences, ChunkSpans;
    ChunkSpansValid(units, maxTokens);
    ChunkSpansPartition(units, maxTokens);
    var spans := ChunkSpans(units, maxTokens);
    var j := ChainCovers(spans, 0, |units|, u);
    assert spans[j] in spans;
    UnitHasSentences(units, spans[j].lo, spans[j].hi, u);
    n := SpanHasChunk(units, spans, maxTokens, budget, j);
  }

  /** The heading of `level` in force where a section opens at unit `i`: that unit if it is one,
      else the latest one of the level placed anywhere before it. */
  function OpeningHeading(units: seq<Unit>, i: nat, level: Level): Option<string>
    requires i < |units|
  {
    if units[i].level == Some(level) then Some(units[i].text)
    else
      var at := LatestIndex(units, level, i);
      if at.Some? then Some(units[at.value].text) else None
  }

  lemma {:induction false} HeadingsAtOpening(units: seq<Unit>, i: nat, lo: nat, level: Level)
    requires i + 1 < |units| && units[i + 1].IsBody() && i <= lo <= i + 1
    ensures NameOf(ContextAt(units, lo), level) == OpeningHeading(units, i, level)
  {
    LatestHeadingIsAt(units, level, i);
    assert LatestHeading(units, level, lo + 1) == LatestHeading(units, level, i + 1);
  }

  /** A heading never clears those of other levels: where a section opens with a heading at the
      primary level or a coarser one and then body text, some chunk's range starts there, and
      next to this heading it carries the latest one of every other level placed anywhere
      before it, finer levels included. */
  lemma {:induction false} SectionKeepsEarlierHeadings(units: seq<Unit>, maxTokens: int, budget: int, i: nat)
    returns (n: nat)
    requires i + 1 < |units| && IsBoundary(units, BoundaryLevels(PrimaryLevel(units)), i)
    requires units[i + 1].IsBody() && units[i + 1].Valid()
    ensures n < |UnitChunks(units, maxTokens, budget)|
    ensures forall level ::
              NameOf(UnitChunks(units, maxTokens, budget)[n].context, level) == OpeningHeading(units, i, level)
  {
    hide SplitSentences, SpanSentences, UnitChunks, FreshAnchors, BookAnchors, PrimaryLevel, BuildChunk, IsBoundary,
      BookPlan, NameOf, ContextAt, OpeningHeading;
    SplitSentencesTail(units[i + 1].text);
    n := UnitHasChunk(units, maxTokens, budget, i + 1);
    var p := BookPlan(units, maxTokens, budget)[n];
    Conservation(units, maxTokens, budget);
    assert ExplainsAt(units, p, UnitChunks(units, maxTokens, budget)[n], n);
    NoBoundaryInside(units, maxTokens, budget, p);
    BuiltContext(PackOf(units, p), ContextAt(units, p.span.lo), n);
    forall level
      ensures NameOf(ContextAt(units, p.span.lo), level) == OpeningHeading(units, i, level)
    {
      HeadingsAtOpening(units, i, p.span.lo, level);
    }
  }

  lemma {:induction false} BuiltContext(pack: seq<Sentence>, context: Context, order: nat)
    requires pack != []
    ensures BuildChunk(pack, context, order).context == context
  {
  }

  /** So in a book of two chapters, a section heading of the first one stands over the chunks of
      the second. */
  lemma {:induction false} FaslOutlivesBab(units: seq<Unit>, maxTokens: int, budget: int) returns (n: nat)
    requires |units| == 5 && units[0].level == units[3].level == Some(Bab) && units[1].level == Some(Fasl)
    requires units[2].IsBody() && units[4].IsBody() && units[4].Valid()
    ensures n < |UnitChunks(units, maxTokens, budget)|
    ensures NameOf(UnitChunks(units, maxTokens, budget)[n].context, Bab) == Some(units[3].text)
    ensures NameOf(UnitChunks(units, maxTokens, budget)[n].context, Fasl) == Some(units[1].text)
  {
    hide UnitChunks, NameOf;
    assert Present(units, Bab);
    n := SectionKeepsEarlierHeadings(units, maxTokens, budget, 3);
    assert LatestIndex(units, Fasl, 2) == Some(1);
    assert OpeningHeading(units, 3, Fasl) == Some(units[1].text);
    assert OpeningHeading(units, 3, Bab) == Some(units[3].text);
  }

  // ---------------------------------------------------------------- token budget

  lemma {:induction false} SpanAnchorsInBook(units: seq<Unit>, span: Span, k: nat)
    requires ValidSpan(units, span) && k < |SpanSentences(units, span.lo, span.hi)|
    ensures Anchors(SpanSentences(units, span.lo, span.hi))[k] in BookAnchors(units, 0, |units|)
  {
    SpanAnchors(units, span.lo, span.hi);
    BookAnchorsSplit(units, 0, span.lo, span.hi);
    BookAnchorsSplit(units, 0, span.hi, |units|);
    var a := Anchors(SpanSentences(units, span.lo, span.hi))[k];
    assert a in BookAnchors(units, span.lo, span.hi);
    assert a in BookAnchors(units, 0, span.hi);
  }

  lemma {:induction false} PackTokens(s: seq<Sentence>, w: Window)
    requires w.lo <= w.hi <= |s|
    ensures CountTokens(JoinBody(s[w.lo..w.hi])) == Tokens(s, w.lo, w.hi)
  {
    JoinFacts(s[w.lo..w.hi], w.hi - w.lo);
    SliceTokens(s, w.lo, w.hi);
  }

  lemma {:induction false} WindowBound(s: seq<Sentence>, maxTokens: int, budget: int, m: nat, w: Window)
    requires w in Windows(s, 0, 0, maxTokens, budget)
    requires forall k :: 0 <= k < |s| ==> Cost(s[k]) <= m
    ensures w.lo <= w.hi <= |s| && Tokens(s, w.lo, w.hi) <= Max(maxTokens, Max(budget, m) + m)
  {
    PackingIsWellPacked(s, maxTokens, budget);
    PackBound(s, Windows(s, 0, 0, maxTokens, budget), 0, maxTokens, budget, m);
  }

  /** Token budget: if no sentence of the book has more than `m` words, the body of every
      chunk has at most max(maxTokens, max(budget, m) + m) words. */
  lemma {:induction false} TokenBudget(units: seq<Unit>, maxTokens: int, budget: int, m: nat, p: Placed)
    requires p in BookPlan(units, maxTokens, budget)
    requires forall a :: a in BookAnchors(units, 0, |units|) ==> CountTokens(a.text) <= m
    ensures ValidPlaced(units, p)
    ensures CountTokens(JoinBody(PackOf(units, p))) <= Max(maxTokens, Max(budget, m) + m)
  {
    hide Plan, Windows, ChunkSpans, SplitSentences;
    ChunkSpansValid(units, maxTokens);
    PlanSpans(units, ChunkSpans(units, maxTokens), maxTokens, budget);
    PlanWindows(units, ChunkSpans(units, maxTokens), maxTokens, budget, p);
    var s := SpanSentences(units, p.span.lo, p.span.hi);
    forall k | 0 <= k < |s|
      ensures Cost(s[k]) <= m
    {
      SpanAnchorsInBook(units, p.span, k);
      assert Cost(s[k]) == CountTokens(Anchors(s)[k].text);
    }
    WindowBound(s, maxTokens, budget, m, p.window);
    PackTokens(s, p.window);
  }

  lemma {:induction false} PlanWindows(units: seq<Unit>, spans: seq<Span>, maxTokens: int, budget: int, p: Placed)
    requires AllValidSpans(units, spans) && p in Plan(units, spans, maxTokens, budget)
    ensures ValidSpan(units, p.span)
    ensures p.window in Windows(SpanSentences(units, p.span.lo, p.span.hi), 0, 0, maxTokens, budget)
  {
    var init := spans[..|spans| - 1];
    if p in Plan(units, init, maxTokens, budget) {
      PlanWindows(units, init, maxTokens, budget, p);
    }
  }

  /** Page anchors: every sentence of a chunk lies on a page from its first to its last PDF page,
      and these are the pages of its first and last sentence. */
  lemma {:induction false} PageAnchors(units: seq<Unit>, maxTokens: int, budget: int, n: nat, k: nat)
    requires PagesOrdered(units) && n < |BookPlan(units, maxTokens, budget)|
    requires k < |PackOf(units, BookPlan(units, maxTokens, budget)[n])|
    ensures n < |UnitChunks(units, maxTokens, budget)|
    ensures AnchoredBy(UnitChunks(units, maxTokens, budget)[n], PackOf(units, BookPlan(units, maxTokens, budget)[n]), k)
  {
    hide BookPlan, UnitChunks, FreshAnchors, BookAnchors, SpanSentences, RawText, ContextHeading;
    Conservation(units, maxTokens, budget);
    var p := BookPlan(units, maxTokens, budget)[n];
    assert ExplainsAt(units, p, UnitChunks(units, maxTokens, budget)[n], n);
    var lo, hi := p.span.lo, p.span.hi;
    SentencePagesAscend(units, lo, hi, p.window.lo, p.window.lo + k);
    SentencePagesAscend(units, lo, hi, p.window.lo + k, p.window.hi - 1);
  }

  predicate AnchoredBy(chunk: Chunk, pack: seq<Sentence>, k: nat)
    requires k < |pack|
  {
    && chunk.pdfPageStart == pack[0].pdfPage && chunk.pdfPageEnd == Last(pack).pdfPage
    && chunk.printedPageStart == pack[0].printedPage && chunk.printedPageEnd == Last(pack).printedPage
    && chunk.pdfPageStart <= pack[k].pdfPage <= chunk.pdfPageEnd
  }

  /** Chunks of one book, or of two, have the same id exactly when they have the same position
      and the same text; inside a book no two chunks do. */
  lemma {:induction false} ChunkIdsIdentify(
    units: seq<Unit>, maxTokens: int, budget: int, other: seq<Unit>, otherMax: int, otherBudget: int, i: nat, j: nat)
    requires i < |UnitChunks(units, maxTokens, budget)| && j < |UnitChunks(other, otherMax, otherBudget)|
    ensures var a, b := UnitChunks(units, maxTokens, budget)[i], UnitChunks(other, otherMax, otherBudget)[j];
            a.id == b.id <==> i == j && a.rawText == b.rawText
  {
    hide BookPlan, UnitChunks, FreshAnchors, BookAnchors, IdOf, RawText;
    Conservation(units, maxTokens, budget);
    Conservation(other, otherMax, otherBudget);
    var a, b := UnitChunks(units, maxTokens, budget)[i], UnitChunks(other, otherMax, otherBudget)[j];
    assert ExplainsAt(units, BookPlan(units, maxTokens, budget)[i], a, i);
    assert ExplainsAt(other, BookPlan(other, otherMax, otherBudget)[j], b, j);
    IdsIdentify(i, a.rawText, j, b.rawText);
  }
}
