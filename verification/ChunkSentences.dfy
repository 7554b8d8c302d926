/** The sentences of an index range of units, and which unit each of them came from. */
module ChunkSentences {
  import opened Sequences
  import opened Text
  import opened ChunkUnits
  import opened ChunkPacking

  function UnitSentences(unit: Unit, key: nat): seq<Sentence> {
    var texts := SplitSentences(unit.text);
    seq(|texts|, i requires 0 <= i < |texts| => Sentence(texts[i], unit.pdfPage, unit.printedPage, key))
  }

  function BodyCount(units: seq<Unit>, lo: nat, hi: nat): nat
    requires lo <= hi <= |units|
    decreases hi - lo
  {
    if lo == hi then 0 else BodyCount(units, lo, hi - 1) + (if units[hi - 1].IsBody() then 1 else 0)
  }

  /** The sentences of the body units in [lo, hi); keys number the body units. */
  function SpanSentences(units: seq<Unit>, lo: nat, hi: nat): seq<Sentence>
    requires lo <= hi <= |units|
    decreases hi - lo
  {
    if lo == hi then []
    else SpanSentences(units, lo, hi - 1)
         + (if units[hi - 1].IsBody() then UnitSentences(units[hi - 1], BodyCount(units, lo, hi - 1)) else [])
  }

  function BodyUnits(units: seq<Unit>, lo: nat, hi: nat): seq<Unit>
    requires lo <= hi <= |units|
    ensures |BodyUnits(units, lo, hi)| == BodyCount(units, lo, hi)
    decreases hi - lo
  {
    if lo == hi then []
    else BodyUnits(units, lo, hi - 1) + (if units[hi - 1].IsBody() then [units[hi - 1]] else [])
  }

  function KeyedSentences(body: seq<Unit>, n: nat): seq<Sentence>
    requires n <= |body|
  {
    if n == 0 then [] else KeyedSentences(body, n - 1) + UnitSentences(body[n - 1], n - 1)
  }

  lemma {:induction false} KeyedPrefix(body: seq<Unit>, longer: seq<Unit>, n: nat)
    requires n <= |body| <= |longer| && longer[..|body|] == body
    ensures KeyedSentences(longer, n) == KeyedSentences(body, n)
  {
    hide UnitSentences;
    if n > 0 { KeyedPrefix(body, longer, n - 1); }
  }

  lemma {:induction false} KeyedAreSpan(units: seq<Unit>, lo: nat, hi: nat)
    requires lo <= hi <= |units|
    ensures KeyedSentences(BodyUnits(units, lo, hi), BodyCount(units, lo, hi)) == SpanSentences(units, lo, hi)
    decreases hi - lo
  {
    hide UnitSentences;
    if lo < hi {
      KeyedAreSpan(units, lo, hi - 1);
      KeyedPrefix(BodyUnits(units, lo, hi - 1), BodyUnits(units, lo, hi), BodyCount(units, lo, hi - 1));
    }
  }

  /** Flattening enumerates the body units of a range and splits each one. */
  method FlattenSentencesLoop(units: seq<Unit>, lo: nat, hi: nat) returns (sentences: seq<Sentence>)
    requires lo <= hi <= |units|
    ensures sentences == SpanSentences(units, lo, hi)
  {
    hide SplitSentences, SpanSentences;
    var body := BodyUnits(units, lo, hi);
    sentences := [];
    for key := 0 to |body|
      invariant sentences == KeyedSentences(body, key)
    {
      var unit := body[key];
      var texts := SplitSentencesLoop(unit.text);
      var added := seq(|texts|, i requires 0 <= i < |texts| =>
        Sentence(texts[i], unit.pdfPage, unit.printedPage, key));
      assert added == UnitSentences(unit, key);
      sentences := sentences + added;
    }
    KeyedAreSpan(units, lo, hi);
  }

  // ---------------------------------------------------------------- owners

  /** The index of the unit that sentence `k` of [lo, hi) comes from. */
  function Owner(units: seq<Unit>, lo: nat, hi: nat, k: nat): (u: nat)
    requires lo <= hi <= |units|
    requires k < |SpanSentences(units, lo, hi)|
    ensures lo <= u < hi && units[u].IsBody()
    decreases hi - lo
  {
    if k < |SpanSentences(units, lo, hi - 1)| then Owner(units, lo, hi - 1, k) else hi - 1
  }

  /** A sentence is one of its owner's sentences and carries the owner's pages. */
  lemma {:induction false} OwnerFacts(units: seq<Unit>, lo: nat, hi: nat, k: nat)
    requires lo <= hi <= |units|
    requires k < |SpanSentences(units, lo, hi)|
    ensures var s, unit := SpanSentences(units, lo, hi)[k], units[Owner(units, lo, hi, k)];
            && s.text in SplitSentences(unit.text)
            && s.pdfPage == unit.pdfPage
            && s.printedPage == unit.printedPage
    decreases hi - lo
  {
    hide SplitSentences;
    if k < |SpanSentences(units, lo, hi - 1)| { OwnerFacts(units, lo, hi - 1, k); }
  }

  /** With units in page order, the sentences of a range are in page order. */
  lemma {:induction false} SentencePagesAscend(units: seq<Unit>, lo: nat, hi: nat, j: nat, k: nat)
    requires lo <= hi <= |units| && PagesOrdered(units)
    requires j <= k < |SpanSentences(units, lo, hi)|
    ensures SpanSentences(units, lo, hi)[j].pdfPage <= SpanSentences(units, lo, hi)[k].pdfPage
    decreases hi - lo
  {
    hide SplitSentences;
    var n := |SpanSentences(units, lo, hi - 1)|;
    if k < n {
      SentencePagesAscend(units, lo, hi - 1, j, k);
    } else if j < n {
      OwnerFacts(units, lo, hi - 1, j);
    }
  }

  lemma {:induction false} LastOfUnit(unit: Unit, key: nat)
    requires unit.Valid()
    ensures SplitSentences(unit.text) != [] && UnitSentences(unit, key) != []
    ensures Last(UnitSentences(unit, key)).text == Last(SplitSentences(unit.text))
  {
    hide SplitSentences;
    SplitSentencesTail(unit.text);
  }

  /** The last sentence of a range closes its unit `u`, and only headings follow that unit. */
  predicate ClosesUnit(units: seq<Unit>, u: nat, end: nat, text: string)
    requires u < end <= |units|
  {
    && (forall x :: u < x < end ==> !units[x].IsBody())
    && SplitSentences(units[u].text) != []
    && text == Last(SplitSentences(units[u].text))
  }

  lemma {:induction false} LastOwner(units: seq<Unit>, lo: nat, hi: nat)
    requires lo <= hi <= |units| && AllValid(units)
    requires SpanSentences(units, lo, hi) != []
    ensures var k := |SpanSentences(units, lo, hi)| - 1;
            ClosesUnit(units, Owner(units, lo, hi, k), hi, SpanSentences(units, lo, hi)[k].text)
    decreases hi - lo
  {
    hide SplitSentences, UnitSentences;
    if units[hi - 1].IsBody() {
      LastOfUnit(units[hi - 1], BodyCount(units, lo, hi - 1));
    } else {
      LastOwner(units, lo, hi - 1);
      var k := |SpanSentences(units, lo, hi)| - 1;
      ClosesFurther(units, Owner(units, lo, hi - 1, k), hi - 1, SpanSentences(units, lo, hi - 1)[k].text);
    }
  }

  lemma {:induction false} ClosesFurther(units: seq<Unit>, u: nat, end: nat, text: string)
    requires u < end < |units| && !units[end].IsBody() && ClosesUnit(units, u, end, text)
    ensures ClosesUnit(units, u, end + 1, text)
  {
  }

  /** Where two neighbouring sentences of a range come from different pages, the first is
      the last sentence of its unit and only headings lie between the two units. */
  lemma {:induction false} PageBreakOwners(units: seq<Unit>, lo: nat, hi: nat, k: nat)
    requires lo <= hi <= |units| && AllValid(units)
    requires k + 1 < |SpanSentences(units, lo, hi)|
    requires SpanSentences(units, lo, hi)[k].pdfPage != SpanSentences(units, lo, hi)[k + 1].pdfPage
    ensures var u, v := Owner(units, lo, hi, k), Owner(units, lo, hi, k + 1);
            u < v && ClosesUnit(units, u, v, SpanSentences(units, lo, hi)[k].text)
    decreases hi - lo
  {
    hide SplitSentences;
    var before := SpanSentences(units, lo, hi - 1);
    if k + 1 < |before| {
      PageBreakOwners(units, lo, hi - 1, k);
    } else if k < |before| {
      LastOwner(units, lo, hi - 1);
    }
  }

  // ---------------------------------------------------------------- anchors

  /** What of a sentence survives into retrieval: its text and its pages. */
  datatype Anchor = Anchor(text: string, pdfPage: int, printedPage: Option<int>)

  function Anchors(s: seq<Sentence>): seq<Anchor> {
    seq(|s|, i requires 0 <= i < |s| => Anchor(s[i].text, s[i].pdfPage, s[i].printedPage))
  }

  lemma {:induction false} AnchorsConcat(a: seq<Sentence>, b: seq<Sentence>)
    ensures Anchors(a + b) == Anchors(a) + Anchors(b)
  {
  }

  /** The sentences of all body units of [lo, hi), each with its unit's pages. */
  function BookAnchors(units: seq<Unit>, lo: nat, hi: nat): seq<Anchor>
    requires lo <= hi <= |units|
    decreases hi - lo
  {
    if lo == hi then []
    else BookAnchors(units, lo, hi - 1)
         + (if units[hi - 1].IsBody() then Anchors(UnitSentences(units[hi - 1], 0)) else [])
  }

  lemma {:induction false} AnchorsIgnoreKey(unit: Unit, key: nat)
    ensures Anchors(UnitSentences(unit, key)) == Anchors(UnitSentences(unit, 0))
  {
    hide SplitSentences;
  }

  lemma {:induction false} SpanAnchors(units: seq<Unit>, lo: nat, hi: nat)
    requires lo <= hi <= |units|
    ensures Anchors(SpanSentences(units, lo, hi)) == BookAnchors(units, lo, hi)
    decreases hi - lo
  {
    hide UnitSentences;
    if lo < hi {
      SpanAnchors(units, lo, hi - 1);
      if units[hi - 1].IsBody() {
        var own := UnitSentences(units[hi - 1], BodyCount(units, lo, hi - 1));
        AnchorsConcat(SpanSentences(units, lo, hi - 1), own);
        AnchorsIgnoreKey(units[hi - 1], BodyCount(units, lo, hi - 1));
      } else {
        AnchorsConcat(SpanSentences(units, lo, hi - 1), []);
      }
    }
  }

  lemma {:induction false} BookAnchorsSplit(units: seq<Unit>, lo: nat, mid: nat, hi: nat)
    requires lo <= mid <= hi <= |units|
    ensures BookAnchors(units, lo, hi) == BookAnchors(units, lo, mid) + BookAnchors(units, mid, hi)
    decreases hi - mid
  {
    if mid < hi { BookAnchorsSplit(units, lo, mid, hi - 1); }
  }

  /** The visible text of a list of anchored sentences. */
  function AnchoredText(a: seq<Anchor>): string {
    if a == [] then "" else AnchoredText(a[..|a| - 1]) + Visible(Last(a).text)
  }

  lemma {:induction false} AnchoredTextConcat(a: seq<Anchor>, b: seq<Anchor>)
    ensures AnchoredText(a + b) == AnchoredText(a) + AnchoredText(b)
  {
    hide Visible;
    if b == [] {
      assert a + b == a;
    } else {
      assert (a + b)[..|a + b| - 1] == a + b[..|b| - 1];
      AnchoredTextConcat(a, b[..|b| - 1]);
    }
  }

  lemma {:induction false} AnchoredTextIsVisible(a: seq<Anchor>, texts: seq<string>)
    requires |a| == |texts| && forall i :: 0 <= i < |a| ==> a[i].text == texts[i]
    ensures AnchoredText(a) == Visible(Flatten(texts))
  {
    if a != [] {
      var n := |a| - 1;
      AnchoredTextIsVisible(a[..n], texts[..n]);
      assert texts == texts[..n] + [texts[n]];
      FlattenConcat(texts[..n], [texts[n]]);
      FlattenSingle(texts[n]);
      VisibleConcat(Flatten(texts[..n]), texts[n]);
    }
  }

  /** Splitting into sentences loses no visible character of any body unit. */
  lemma {:induction false} BookAnchorsConserve(units: seq<Unit>, n: nat)
    requires n <= |units|
    ensures AnchoredText(BookAnchors(units, 0, n)) == Visible(UnitsBody(units[..n]))
  {
    hide SplitSentences;
    if n > 0 {
      var unit := units[n - 1];
      BookAnchorsConserve(units, n - 1);
      assert units[..n] == units[..n - 1] + [unit];
      UnitsBodyConcat(units[..n - 1], [unit]);
      var own := if unit.IsBody() then unit.text else "";
      assert UnitsBody([unit]) == own + UnitsBody([]) == own;
      assert Visible("") == "";
      VisibleConcat(UnitsBody(units[..n - 1]), own);
      if unit.IsBody() {
        var mine := Anchors(UnitSentences(unit, 0));
        AnchoredTextIsVisible(mine, SplitSentences(unit.text));
        SplitSentencesConserves(unit.text);
        AnchoredTextConcat(BookAnchors(units, 0, n - 1), mine);
      } else {
        assert BookAnchors(units, 0, n) == BookAnchors(units, 0, n - 1);
        assert UnitsBody(units[..n]) == UnitsBody(units[..n - 1]);
      }
    }
  }
}
