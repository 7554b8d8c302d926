/** Ranges between boundaries and the recursive split of oversized ranges. */
module ChunkRanges {
  import opened Sequences
  import opened Text
  import opened ChunkUnits

  /** The half-open index range [lo, hi). */
  datatype Span = Span(lo: nat, hi: nat)

  predicate ValidSpan(units: seq<Unit>, span: Span) {
    span.lo < span.hi <= |units|
  }

  /** Non-empty spans laid end to end from `lo` to `hi`. */
  predicate Chained(spans: seq<Span>, lo: nat, hi: nat) {
    if spans == [] then lo == hi
    else spans[0].lo == lo && lo < spans[0].hi && Chained(spans[1..], spans[0].hi, hi)
  }

  lemma {:induction false} ChainedConcat(a: seq<Span>, b: seq<Span>, lo: nat, mid: nat, hi: nat)
    requires Chained(a, lo, mid) && Chained(b, mid, hi)
    ensures Chained(a + b, lo, hi)
  {
    if a == [] {
      assert a + b == b;
    } else {
      assert (a + b)[1..] == a[1..] + b;
      ChainedConcat(a[1..], b, a[0].hi, mid, hi);
    }
  }

  lemma {:induction false} ChainedBounds(spans: seq<Span>, lo: nat, hi: nat)
    requires Chained(spans, lo, hi)
    ensures lo <= hi
    ensures forall s :: s in spans ==> lo <= s.lo < s.hi <= hi
  {
    if spans != [] { ChainedBounds(spans[1..], spans[0].hi, hi); }
  }

  lemma {:induction false} ChainCovers(spans: seq<Span>, lo: nat, hi: nat, u: nat) returns (j: nat)
    requires Chained(spans, lo, hi) && lo <= u < hi
    ensures j < |spans| && spans[j].lo <= u < spans[j].hi
  {
    if u < spans[0].hi {
      j := 0;
    } else {
      j := ChainCovers(spans[1..], spans[0].hi, hi, u);
      j := j + 1;
    }
  }

  // ---------------------------------------------------------------- ranges

  predicate CutsWithin(cuts: seq<int>, lo: int, hi: int) {
    StrictlyIncreasing(cuts) && forall k :: 0 <= k < |cuts| ==> lo <= cuts[k] <= hi
  }

  /** [lo, hi) cut at each of `cuts`. */
  function Cut(lo: nat, cuts: seq<int>, hi: nat): seq<Span>
    requires lo <= hi && CutsWithin(cuts, lo, hi)
    decreases |cuts|
  {
    if cuts == [] then (if lo < hi then [Span(lo, hi)] else [])
    else if cuts[0] == lo then Cut(lo, cuts[1..], hi)
    else [Span(lo, cuts[0])] + Cut(cuts[0], cuts[1..], hi)
  }

  lemma {:induction false} CutChained(lo: nat, cuts: seq<int>, hi: nat)
    requires lo <= hi && CutsWithin(cuts, lo, hi)
    ensures Chained(Cut(lo, cuts, hi), lo, hi)
    ensures forall s, c :: s in Cut(lo, cuts, hi) && c in cuts ==> !(s.lo < c < s.hi)
    ensures forall s :: s in Cut(lo, cuts, hi) ==> s.lo == lo || s.lo in cuts
    decreases |cuts|
  {
    hide IsBoundary;
    if cuts != [] {
      assert cuts[0] in cuts;
      assert forall c :: c in cuts <==> c == cuts[0] || c in cuts[1..];
      var from: nat := cuts[0];
      CutChained(from, cuts[1..], hi);
      ChainedBounds(Cut(from, cuts[1..], hi), from, hi);
      if cuts[0] == lo {
        assert forall c :: c in cuts[1..] ==> c > lo;
      } else {
        assert Cut(lo, cuts, hi)[1..] == Cut(from, cuts[1..], hi);
      }
    }
  }

  /** The spans between neighbouring bounds. */
  function Pairs(bounds: seq<int>): seq<Span>
    requires StrictlyIncreasing(bounds) && (bounds != [] ==> bounds[0] >= 0)
  {
    if |bounds| <= 1 then []
    else [Span(bounds[0], bounds[1])] + Pairs(bounds[1..])
  }

  /** Pairing the neighbours of the listed bounds is cutting at them. */
  lemma {:induction false} PairsOfEnds(lo: nat, hi: nat, bounds: seq<int>)
    requires lo <= hi && StrictlyIncreasing(bounds) && forall x :: x in bounds <==> x == lo || x == hi
    ensures bounds != [] && bounds[0] == lo && Pairs(bounds) == if lo < hi then [Span(lo, hi)] else []
  {
    IncreasingListingUnique(bounds, if lo < hi then [lo, hi] else [lo]);
  }

  lemma {:induction false} FirstBound(lo: nat, bounds: seq<int>)
    requires StrictlyIncreasing(bounds) && lo in bounds && forall x :: x in bounds ==> lo <= x
    ensures bounds[0] == lo && forall x :: x in bounds[1..] <==> x in bounds && x != lo
  {
    assert bounds[0] in bounds;
    assert bounds == [bounds[0]] + bounds[1..];
  }

  lemma {:induction false} PairsAreCut(lo: nat, cuts: seq<int>, hi: nat, bounds: seq<int>)
    requires lo <= hi && CutsWithin(cuts, lo, hi)
    requires StrictlyIncreasing(bounds)
    requires forall x :: x in bounds <==> x == lo || x in cuts || x == hi
    ensures bounds != [] && bounds[0] == lo && Pairs(bounds) == Cut(lo, cuts, hi)
    decreases |cuts|
  {
    if cuts == [] {
      PairsOfEnds(lo, hi, bounds);
    } else {
      var c: nat := cuts[0];
      assert c in cuts;
      FirstBound(lo, bounds);
      FirstBound(c, cuts);
      if c == lo {
        PairsAreCut(lo, cuts[1..], hi, bounds);
      } else {
        PairsAreCut(c, cuts[1..], hi, bounds[1..]);
      }
    }
  }

  /** Drops adjacent repetitions from ascending bounds. */
  method Deduplicate(bounds: seq<int>) returns (deduped: seq<int>)
    requires forall i, j :: 0 <= i < j < |bounds| ==> bounds[i] <= bounds[j]
    ensures StrictlyIncreasing(deduped)
    ensures forall x :: x in deduped <==> x in bounds
  {
    deduped := [];
    for i := 0 to |bounds|
      invariant if i == 0 then deduped == [] else deduped != [] && Last(deduped) == bounds[i - 1]
      invariant StrictlyIncreasing(deduped)
      invariant forall x :: x in deduped <==> x in bounds[..i]
    {
      assert bounds[..i + 1] == bounds[..i] + [bounds[i]];
      if deduped == [] || bounds[i] != Last(deduped) {
        assert forall k :: 0 <= k < |deduped| ==> deduped[k] <= Last(deduped);
        deduped := deduped + [bounds[i]];
      }
    }
    assert bounds[..|bounds|] == bounds;
  }

  /** Ranges covering [start, length): sorted cut points between the ends, adjacent
      repetitions dropped, neighbours paired. */
  method RangesLoop(starts: seq<int>, length: nat, start: nat) returns (spans: seq<Span>)
    requires start <= length
    requires forall k :: 0 <= k < |starts| ==> start <= starts[k] <= length
    ensures CutsWithin(SortedSet(starts), start, length)
    ensures spans == Cut(start, SortedSet(starts), length)
  {
    var cuts := SortedSet(starts);
    var deduped := Deduplicate([start as int] + cuts + [length]);
    PairsAreCut(start, cuts, length, deduped);
    spans := Pairs(deduped);
  }

  // ---------------------------------------------------------------- recursive split

  function BodyTokens(units: seq<Unit>, lo: nat, hi: nat): nat
    requires lo <= hi <= |units|
    decreases hi - lo
  {
    if lo == hi then 0
    else (if units[lo].IsBody() then CountTokens(units[lo].text) else 0) + BodyTokens(units, lo + 1, hi)
  }

  /** Indices in [lo, hi) of the headings of `level`, ascending. */
  function HeadingStarts(units: seq<Unit>, lo: nat, hi: nat, level: Level): (r: seq<int>)
    requires lo <= hi <= |units|
    ensures StrictlyIncreasing(r)
    ensures forall i :: i in r <==> lo <= i < hi && units[i].level == Some(level)
    ensures forall k :: 0 <= k < |r| ==> lo <= r[k] < hi
    decreases hi - lo
  {
    if lo == hi then []
    else
      var rest := HeadingStarts(units, lo + 1, hi, level);
      assert forall k :: 0 <= k < |rest| ==> rest[k] in rest;
      (if units[lo].level == Some(level) then [lo] else []) + rest
  }

  /** An oversized range is cut at the headings of the next finer level, recursively. */
  function SplitRange(units: seq<Unit>, span: Span, maxTokens: int, subLevels: seq<Level>): seq<Span>
    requires ValidSpan(units, span)
    decreases |subLevels|, 0, 0
  {
    if BodyTokens(units, span.lo, span.hi) <= maxTokens || subLevels == [] then [span]
    else
      var heads := HeadingStarts(units, span.lo, span.hi, subLevels[0]);
      if heads == [] then [span]
      else
        CutChained(span.lo, heads, span.hi);
        ChainedBounds(Cut(span.lo, heads, span.hi), span.lo, span.hi);
        SplitAll(units, Cut(span.lo, heads, span.hi), maxTokens, subLevels[1..])
  }

  function SplitAll(units: seq<Unit>, spans: seq<Span>, maxTokens: int, subLevels: seq<Level>): seq<Span>
    requires forall s :: s in spans ==> ValidSpan(units, s)
    decreases |subLevels|, 1, |spans|
  {
    if spans == [] then []
    else SplitRange(units, spans[0], maxTokens, subLevels)
         + SplitAll(units, spans[1..], maxTokens, subLevels)
  }

  /** Some span of `spans` contains `inner`. */
  predicate Within(inner: Span, spans: seq<Span>) {
    exists s :: s in spans && s.lo <= inner.lo && inner.hi <= s.hi
  }

  /** Splitting covers its range exactly. */
  lemma {:induction false} SplitRangeChained(units: seq<Unit>, span: Span, maxTokens: int, subLevels: seq<Level>)
    requires ValidSpan(units, span)
    ensures Chained(SplitRange(units, span, maxTokens, subLevels), span.lo, span.hi)
    decreases |subLevels|, 0, 0
  {
    if BodyTokens(units, span.lo, span.hi) > maxTokens && subLevels != [] {
      var heads := HeadingStarts(units, span.lo, span.hi, subLevels[0]);
      if heads != [] {
        CutChained(span.lo, heads, span.hi);
        ChainedBounds(Cut(span.lo, heads, span.hi), span.lo, span.hi);
        SplitAllChained(units, Cut(span.lo, heads, span.hi), maxTokens, subLevels[1..], span.lo, span.hi);
      }
    }
  }

  lemma {:induction false} SplitAllChained(
    units: seq<Unit>, spans: seq<Span>, maxTokens: int, subLevels: seq<Level>, lo: nat, hi: nat)
    requires forall s :: s in spans ==> ValidSpan(units, s)
    requires Chained(spans, lo, hi)
    ensures Chained(SplitAll(units, spans, maxTokens, subLevels), lo, hi)
    ensures forall s :: s in SplitAll(units, spans, maxTokens, subLevels) ==> Within(s, spans)
    decreases |subLevels|, 1, |spans|
  {
    if spans != [] {
      var first := SplitRange(units, spans[0], maxTokens, subLevels);
      SplitRangeChained(units, spans[0], maxTokens, subLevels);
      ChainedBounds(first, spans[0].lo, spans[0].hi);
      SplitAllChained(units, spans[1..], maxTokens, subLevels, spans[0].hi, hi);
      var rest := SplitAll(units, spans[1..], maxTokens, subLevels);
      ChainedConcat(first, rest, lo, spans[0].hi, hi);
      forall s | s in first + rest
        ensures Within(s, spans)
      {
        if s in first {
          assert spans[0] in spans;
        } else {
          assert Within(s, spans[1..]);
        }
      }
    }
  }

  /** Why a range is cut: it was oversized, and the cut points are headings of one of the
      finer levels; a range that fits stays whole. */
  lemma {:induction false} SplitRangeAtHeadings(units: seq<Unit>, span: Span, maxTokens: int, subLevels: seq<Level>)
    requires ValidSpan(units, span)
    ensures var pieces := SplitRange(units, span, maxTokens, subLevels);
            && (|pieces| > 1 ==> BodyTokens(units, span.lo, span.hi) > maxTokens)
            && forall s :: s in pieces ==>
                 s.lo == span.lo
                 || (s.lo < |units| && units[s.lo].level.Some? && units[s.lo].level.value in subLevels)
    decreases |subLevels|, 0, 0
  {
    if BodyTokens(units, span.lo, span.hi) > maxTokens && subLevels != [] {
      var heads := HeadingStarts(units, span.lo, span.hi, subLevels[0]);
      if heads != [] {
        CutChained(span.lo, heads, span.hi);
        ChainedBounds(Cut(span.lo, heads, span.hi), span.lo, span.hi);
        SplitAllAtHeadings(units, Cut(span.lo, heads, span.hi), maxTokens, subLevels[1..]);
      }
    }
  }

  lemma {:induction false} SplitAllAtHeadings(
    units: seq<Unit>, spans: seq<Span>, maxTokens: int, subLevels: seq<Level>)
    requires forall s :: s in spans ==> ValidSpan(units, s)
    ensures forall s :: s in SplitAll(units, spans, maxTokens, subLevels) ==>
              (exists o :: o in spans && o.lo == s.lo)
              || (s.lo < |units| && units[s.lo].level.Some? && units[s.lo].level.value in subLevels)
    decreases |subLevels|, 1, |spans|
  {
    if spans != [] {
      SplitRangeAtHeadings(units, spans[0], maxTokens, subLevels);
      SplitAllAtHeadings(units, spans[1..], maxTokens, subLevels);
      assert spans[0] in spans;
    }
  }

  // ---------------------------------------------------------------- where an oversized range is cut

  predicate StartsAt(spans: seq<Span>, i: nat) {
    exists s :: s in spans && s.lo == i
  }

  predicate HasHeading(units: seq<Unit>, lo: nat, hi: nat, level: Level)
    requires lo <= hi <= |units|
  {
    exists i :: lo <= i < hi && units[i].level == Some(level)
  }

  /** The latest heading of `level` in [lo, i], or `lo`. */
  function SectionStart(units: seq<Unit>, level: Level, lo: nat, i: nat): (r: nat)
    requires lo <= i < |units|
    ensures lo <= r <= i && (r == lo || units[r].level == Some(level))
    ensures forall j :: r < j <= i ==> units[j].level != Some(level)
    decreases i
  {
    if i == lo || units[i].level == Some(level) then i else SectionStart(units, level, lo, i - 1)
  }

  /** The next heading of `level` in [i, hi), or `hi`. */
  function SectionEnd(units: seq<Unit>, level: Level, i: nat, hi: nat): (r: nat)
    requires i <= hi <= |units|
    ensures i <= r <= hi && (r == hi || units[r].level == Some(level))
    ensures forall j :: i <= j < r ==> units[j].level != Some(level)
    decreases hi - i
  {
    if i == hi || units[i].level == Some(level) then i else SectionEnd(units, level, i + 1, hi)
  }

  /** Whether a piece begins at unit `i` of [lo, hi): the range has more than `maxTokens` words and
      a heading of the next level, and `i` is such a heading or a piece begins there in the
      section of that level around it. */
  predicate CutPoint(units: seq<Unit>, lo: nat, hi: nat, maxTokens: int, subLevels: seq<Level>, i: nat)
    requires lo < i < hi <= |units|
    decreases |subLevels|
  {
    && subLevels != []
    && BodyTokens(units, lo, hi) > maxTokens
    && HasHeading(units, lo, hi, subLevels[0])
    && (units[i].level == Some(subLevels[0])
        || CutPoint(units, SectionStart(units, subLevels[0], lo, i), SectionEnd(units, subLevels[0], i, hi),
                    maxTokens, subLevels[1..], i))
  }

  lemma {:induction false} ChainedNext(spans: seq<Span>, lo: nat, hi: nat, s: Span)
    requires Chained(spans, lo, hi) && s in spans
    ensures s.hi == hi || StartsAt(spans, s.hi)
  {
    if s == spans[0] {
      if |spans| > 1 { assert spans[1] in spans; }
    } else {
      ChainedNext(spans[1..], spans[0].hi, hi, s);
    }
  }

  /** The range between the neighbouring cuts `from` and `to` around `i`. */
  lemma {:induction false} CutAround(lo: nat, cuts: seq<int>, hi: nat, i: nat, from: nat, to: nat)
    requires lo <= from <= i < to <= hi && CutsWithin(cuts, lo, hi)
    requires (from == lo || from in cuts) && (to == hi || to in cuts)
    requires forall c :: c in cuts ==> !(from < c < to)
    ensures Span(from, to) in Cut(lo, cuts, hi)
  {
    hide Cut, CutsWithin;
    var spans := Cut(lo, cuts, hi);
    CutChained(lo, cuts, hi);
    ChainedBounds(spans, lo, hi);
    var j := ChainCovers(spans, lo, hi, i);
    var s := spans[j];
    assert s in spans;
    ChainedNext(spans, lo, hi, s);
    if s.hi != hi {
      var o :| o in spans && o.lo == s.hi;
      assert s.hi in cuts;
    }
    assert s.lo == from && s.hi == to;
  }

  lemma {:induction false} SectionAround(units: seq<Unit>, lo: nat, hi: nat, level: Level, i: nat)
    requires lo <= i < hi <= |units|
    ensures Span(SectionStart(units, level, lo, i), SectionEnd(units, level, i + 1, hi))
            in Cut(lo, HeadingStarts(units, lo, hi, level), hi)
  {
    hide Cut, HeadingStarts, SectionStart, SectionEnd;
    CutAround(lo, HeadingStarts(units, lo, hi, level), hi, i,
              SectionStart(units, level, lo, i), SectionEnd(units, level, i + 1, hi));
  }

  /** In a list of pieces laid end to end, only those split from the range around `i` can begin at
      `i`. */
  lemma {:induction false} SplitAllAround(
    units: seq<Unit>, spans: seq<Span>, maxTokens: int, subLevels: seq<Level>, lo: nat, hi: nat, s: Span, i: nat)
    requires (forall o :: o in spans ==> ValidSpan(units, o)) && Chained(spans, lo, hi)
    requires s in spans && s.lo <= i < s.hi
    ensures StartsAt(SplitAll(units, spans, maxTokens, subLevels), i)
            <==> StartsAt(SplitRange(units, s, maxTokens, subLevels), i)
    decreases |spans|
  {
    hide SplitRange;
    var first, rest := SplitRange(units, spans[0], maxTokens, subLevels),
                       SplitAll(units, spans[1..], maxTokens, subLevels);
    SplitRangeChained(units, spans[0], maxTokens, subLevels);
    ChainedBounds(first, spans[0].lo, spans[0].hi);
    SplitAllChained(units, spans[1..], maxTokens, subLevels, spans[0].hi, hi);
    ChainedBounds(rest, spans[0].hi, hi);
    ChainedBounds(spans, lo, hi);
    ChainedBounds(spans[1..], spans[0].hi, hi);
    assert spans[0] in spans;
    if s == spans[0] {
      assert forall o :: o in rest ==> o.lo >= s.hi;
    } else {
      assert s in spans[1..];
      SplitAllAround(units, spans[1..], maxTokens, subLevels, spans[0].hi, hi, s, i);
      assert forall o :: o in first ==> o.lo < spans[0].hi <= s.lo;
    }
    assert forall o :: o in first + rest <==> o in first || o in rest;
  }

  lemma {:induction false} FirstPieceStarts(units: seq<Unit>, span: Span, maxTokens: int, subLevels: seq<Level>)
    requires ValidSpan(units, span)
    ensures StartsAt(SplitRange(units, span, maxTokens, subLevels), span.lo)
  {
    hide SplitRange;
    SplitRangeChained(units, span, maxTokens, subLevels);
    assert SplitRange(units, span, maxTokens, subLevels)[0] in SplitRange(units, span, maxTokens, subLevels);
  }

  /** Where an oversized range is cut, exactly: at every heading of the next finer level, and in
      each section between two of them that is still oversized at every heading of the level
      after that, and so on, as long as the section has a heading of the level at all. */
  lemma {:induction false} SplitRangeExactly(
    units: seq<Unit>, span: Span, maxTokens: int, subLevels: seq<Level>, i: nat)
    requires ValidSpan(units, span) && span.lo < i < span.hi
    ensures StartsAt(SplitRange(units, span, maxTokens, subLevels), i)
            <==> CutPoint(units, span.lo, span.hi, maxTokens, subLevels, i)
    decreases |subLevels|
  {
    hide SplitAll, Cut, HeadingStarts, BodyTokens, StartsAt, SectionStart, SectionEnd;
    StartsWhole(span, i);
    if BodyTokens(units, span.lo, span.hi) > maxTokens && subLevels != [] {
      var heads := HeadingStarts(units, span.lo, span.hi, subLevels[0]);
      if heads == [] {
        assert forall j :: span.lo <= j < span.hi && units[j].level == Some(subLevels[0]) ==> j in heads;
      } else {
        assert heads[0] in heads;
        SplitAtSection(units, span, maxTokens, subLevels, heads, i);
      }
    }
  }

  lemma {:induction false} StartsWhole(span: Span, i: nat)
    ensures StartsAt([span], i) <==> i == span.lo
  {
    assert span in [span];
  }

  lemma {:induction false} SplitAtSection(
    units: seq<Unit>, span: Span, maxTokens: int, subLevels: seq<Level>, heads: seq<int>, i: nat)
    requires ValidSpan(units, span) && span.lo < i < span.hi
    requires BodyTokens(units, span.lo, span.hi) > maxTokens && subLevels != []
    requires heads == HeadingStarts(units, span.lo, span.hi, subLevels[0]) && heads != []
    requires HasHeading(units, span.lo, span.hi, subLevels[0])
    ensures StartsAt(SplitRange(units, span, maxTokens, subLevels), i)
            <==> CutPoint(units, span.lo, span.hi, maxTokens, subLevels, i)
    decreases |subLevels|, 0
  {
    hide HeadingStarts, Cut, SplitAll, BodyTokens, SectionStart, SectionEnd, StartsAt, HasHeading;
    var level, cut := subLevels[0], Cut(span.lo, heads, span.hi);
    CutChained(span.lo, heads, span.hi);
    ChainedBounds(cut, span.lo, span.hi);
    SectionAround(units, span.lo, span.hi, level, i);
    var from, to := SectionStart(units, level, span.lo, i), SectionEnd(units, level, i + 1, span.hi);
    var s := Span(from, to);
    SplitAllAround(units, cut, maxTokens, subLevels[1..], span.lo, span.hi, s, i);
    if from == i {
      FirstPieceStarts(units, s, maxTokens, subLevels[1..]);
    } else {
      SplitRangeExactly(units, s, maxTokens, subLevels[1..], i);
    }
  }

  // ---------------------------------------------------------------- all ranges of a book

  function BoundarySpans(units: seq<Unit>): (r: seq<Span>)
    ensures Chained(r, 0, |units|)
  {
    var starts := BoundaryStarts(units, BoundaryLevels(PrimaryLevel(units)), |units|);
    CutChained(0, starts, |units|);
    Cut(0, starts, |units|)
  }

  /** The ranges the packer works on: boundary ranges, oversized ones split further. */
  function ChunkSpans(units: seq<Unit>, maxTokens: int): seq<Span> {
    ChainedBounds(BoundarySpans(units), 0, |units|);
    SplitAll(units, BoundarySpans(units), maxTokens, SubLevels(PrimaryLevel(units)))
  }

  /** The ranges are an ordered partition of all units, and no boundary lies strictly
      inside one. */
  lemma {:induction false} ChunkSpansPartition(units: seq<Unit>, maxTokens: int)
    ensures Chained(ChunkSpans(units, maxTokens), 0, |units|)
    ensures forall s, i :: s in ChunkSpans(units, maxTokens) && s.lo < i < s.hi ==>
              !IsBoundary(units, BoundaryLevels(PrimaryLevel(units)), i)
  {
    hide IsBoundary, SplitAll, Cut, PrimaryLevel;
    var levels := BoundaryLevels(PrimaryLevel(units));
    var starts := BoundaryStarts(units, levels, |units|);
    CutChained(0, starts, |units|);
    ChainedBounds(BoundarySpans(units), 0, |units|);
    SplitAllChained(units, BoundarySpans(units), maxTokens, SubLevels(PrimaryLevel(units)), 0, |units|);
    forall s, i | s in ChunkSpans(units, maxTokens) && s.lo < i < s.hi
      ensures !IsBoundary(units, levels, i)
    {
      assert Within(s, BoundarySpans(units));
      var o :| o in BoundarySpans(units) && o.lo <= s.lo && s.hi <= o.hi;
      assert i !in starts;
      StartsAreBoundaries(units, levels, |units|, i);
    }
  }

  // ---------------------------------------------------------------- where ranges begin

  /** The latest boundary in [0, i], or 0. */
  function BoundaryBefore(units: seq<Unit>, levels: set<Level>, i: nat): (r: nat)
    requires i < |units|
    ensures r <= i && (r == 0 || IsBoundary(units, levels, r))
    ensures forall j :: r < j <= i ==> !IsBoundary(units, levels, j)
  {
    if i == 0 || IsBoundary(units, levels, i) then i else BoundaryBefore(units, levels, i - 1)
  }

  /** The next boundary in [i, |units|), or |units|. */
  function BoundaryFrom(units: seq<Unit>, levels: set<Level>, i: nat): (r: nat)
    requires i <= |units|
    ensures i <= r <= |units| && (r == |units| || IsBoundary(units, levels, r))
    ensures forall j :: i <= j < r ==> !IsBoundary(units, levels, j)
    decreases |units| - i
  {
    if i == |units| || IsBoundary(units, levels, i) then i else BoundaryFrom(units, levels, i + 1)
  }

  /** The boundary range around unit `i`. */
  function BoundaryRange(units: seq<Unit>, i: nat): (r: Span)
    requires i < |units|
    ensures r.lo <= i < r.hi <= |units|
  {
    var levels := BoundaryLevels(PrimaryLevel(units));
    Span(BoundaryBefore(units, levels, i), BoundaryFrom(units, levels, i + 1))
  }

  lemma {:induction false} BoundaryRangeIsCut(units: seq<Unit>, i: nat)
    requires i < |units|
    ensures BoundaryRange(units, i) in BoundarySpans(units)
  {
    hide IsBoundary, Cut, BoundaryBefore, BoundaryFrom, BoundaryStarts, PrimaryLevel;
    var levels := BoundaryLevels(PrimaryLevel(units));
    var starts, r := BoundaryStarts(units, levels, |units|), BoundaryRange(units, i);
    forall c: int
      ensures c in starts <==> IsBoundary(units, levels, c)
    {
      BoundaryListed(units, levels, c);
    }
    CutAround(0, starts, |units|, i, r.lo, r.hi);
  }

  lemma {:induction false} BoundaryListed(units: seq<Unit>, levels: set<Level>, c: int)
    ensures c in BoundaryStarts(units, levels, |units|) <==> IsBoundary(units, levels, c)
  {
    StartsAreBoundaries(units, levels, |units|, c);
  }

  /** Where ranges begin, exactly: at every boundary, and at the cut points of the boundary range
      around a unit. */
  lemma {:induction false} RangesExactly(units: seq<Unit>, maxTokens: int, i: nat)
    requires 0 < i < |units|
    ensures var range := BoundaryRange(units, i);
            StartsAt(ChunkSpans(units, maxTokens), i)
            <==> IsBoundary(units, BoundaryLevels(PrimaryLevel(units)), i)
                 || (range.lo < i
                     && CutPoint(units, range.lo, range.hi, maxTokens, SubLevels(PrimaryLevel(units)), i))
  {
    hide IsBoundary, SplitAll, SplitRange, Cut, CutPoint, PrimaryLevel, BoundarySpans, BoundaryFrom, SubLevels;
    var range, levels := BoundaryRange(units, i), SubLevels(PrimaryLevel(units));
    ChainedBounds(BoundarySpans(units), 0, |units|);
    BoundaryRangeIsCut(units, i);
    SplitAllAround(units, BoundarySpans(units), maxTokens, levels, 0, |units|, range, i);
    if range.lo == i {
      FirstPieceStarts(units, range, maxTokens, levels);
    } else {
      SplitRangeExactly(units, range, maxTokens, levels, i);
    }
  }

  lemma {:induction false} StartsApart(spans: seq<Span>, lo: nat, hi: nat, s: Span, i: nat)
    requires Chained(spans, lo, hi) && s in spans && StartsAt(spans, i)
    ensures !(s.lo < i < s.hi)
  {
    ChainedBounds(spans, lo, hi);
    ChainedBounds(spans[1..], spans[0].hi, hi);
    if s != spans[0] && exists o :: o in spans[1..] && o.lo == i {
      StartsApart(spans[1..], spans[0].hi, hi, s, i);
    }
    assert forall o :: o in spans ==> o == spans[0] || o in spans[1..];
  }

  /** An oversized boundary range leaves no heading of the first finer level inside a range. */
  lemma {:induction false} NoFinerHeadingInside(units: seq<Unit>, maxTokens: int, s: Span, i: nat)
    requires s in ChunkSpans(units, maxTokens) && s.lo < i < s.hi <= |units|
    requires BodyTokens(units, BoundaryRange(units, i).lo, BoundaryRange(units, i).hi) > maxTokens
    requires SubLevels(PrimaryLevel(units)) != []
    ensures units[i].level != Some(SubLevels(PrimaryLevel(units))[0])
  {
    hide IsBoundary, SplitAll, Cut, PrimaryLevel, BoundarySpans, BoundaryBefore, BoundaryFrom, ChunkSpans;
    ChunkSpansPartition(units, maxTokens);
    RangesExactly(units, maxTokens, i);
    if units[i].level == Some(SubLevels(PrimaryLevel(units))[0]) {
      StartsApart(ChunkSpans(units, maxTokens), 0, |units|, s, i);
    }
  }
}
