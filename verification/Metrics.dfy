/** Ranking metrics of the evaluation harness, for any strictly decreasing rank weight. */
module Metrics {
  import opened Ids
  import opened Sequences
  import opened Sorting
  import opened Retrieval

  /** Weight of a rank, counted from 1; the service uses 1 / log2(rank + 1). */
  type Weight = int -> real

  ghost predicate Discount(weight: Weight) {
    && (forall r :: r >= 1 ==> weight(r) > 0.0)
    && (forall r, s :: 1 <= r < s ==> weight(r) > weight(s))
  }

  function Recall<T(==)>(retrieved: seq<T>, expected: set<T>, k: int): real {
    if expected == {} then 0.0
    else if exists i :: 0 <= i < PrefixLength(|retrieved|, k) && retrieved[i] in expected then 1.0
    else 0.0
  }

  /** Position of the first expected result, or |retrieved|. */
  function FirstExpected<T(==)>(retrieved: seq<T>, expected: set<T>, i: nat): (p: nat)
    requires i <= |retrieved|
    ensures i <= p <= |retrieved|
    ensures p < |retrieved| ==> retrieved[p] in expected
    ensures forall j :: i <= j < p ==> retrieved[j] !in expected
    decreases |retrieved| - i
  {
    if i == |retrieved| || retrieved[i] in expected then i else FirstExpected(retrieved, expected, i + 1)
  }

  /** Reciprocal rank of the first expected result. */
  function Mrr<T(==)>(retrieved: seq<T>, expected: set<T>): real {
    var p := FirstExpected(retrieved, expected, 0);
    if p == |retrieved| then 0.0 else 1.0 / (p + 1) as real
  }

  method MrrLoop<T(==)>(retrieved: seq<T>, expected: set<T>) returns (score: real)
    ensures score == Mrr(retrieved, expected)
  {
    for i := 0 to |retrieved|
      invariant FirstExpected(retrieved, expected, 0) == FirstExpected(retrieved, expected, i)
    {
      if retrieved[i] in expected { return 1.0 / (i + 1) as real; }
    }
    score := 0.0;
  }

  /** Discounted gain of the first `n` results. */
  function Dcg<T(==)>(retrieved: seq<T>, expected: set<T>, weight: Weight, n: nat): real
    requires n <= |retrieved|
  {
    if n == 0 then 0.0
    else Dcg(retrieved, expected, weight, n - 1) + (if retrieved[n - 1] in expected then weight(n) else 0.0)
  }

  /** Gain of `n` expected results in the first `n` places. */
  function Ideal(weight: Weight, n: int): real {
    if n <= 0 then 0.0 else Ideal(weight, n - 1) + weight(n)
  }

  function Ndcg<T(==)>(retrieved: seq<T>, expected: set<T>, weight: Weight, k: int): real {
    if expected == {} then 0.0
    else
      var dcg := Dcg(retrieved, expected, weight, PrefixLength(|retrieved|, k));
      var ideal := Ideal(weight, Min(|expected|, k));
      if ideal == 0.0 then 0.0 else dcg / ideal
  }

  // ---------------------------------------------------------------- the bound

  /** Expected results among the first `n`. */
  function Hits<T(==)>(retrieved: seq<T>, expected: set<T>, n: nat): (h: nat)
    requires n <= |retrieved|
    ensures h <= n
  {
    if n == 0 then 0 else Hits(retrieved, expected, n - 1) + (if retrieved[n - 1] in expected then 1 else 0)
  }

  predicate Distinct<T(==)>(s: seq<T>) {
    forall i, j :: 0 <= i < j < |s| ==> s[i] != s[j]
  }

  function HitSet<T(==)>(retrieved: seq<T>, expected: set<T>, n: nat): set<T>
    requires n <= |retrieved|
  {
    if n == 0 then {}
    else if retrieved[n - 1] in expected then HitSet(retrieved, expected, n - 1) + {retrieved[n - 1]}
    else HitSet(retrieved, expected, n - 1)
  }

  lemma {:induction false} HitSetMembers<T>(retrieved: seq<T>, expected: set<T>, n: nat, x: T)
    requires n <= |retrieved|
    ensures x in HitSet(retrieved, expected, n) ==> x in expected && exists i :: 0 <= i < n && retrieved[i] == x
  {
    if n > 0 { HitSetMembers(retrieved, expected, n - 1, x); }
  }

  lemma {:induction false} NewHit<T>(retrieved: seq<T>, expected: set<T>, n: nat)
    requires n < |retrieved| && Distinct(retrieved)
    ensures retrieved[n] !in HitSet(retrieved, expected, n)
  {
    HitSetMembers(retrieved, expected, n, retrieved[n]);
  }

  lemma {:induction false} HitsAreDistinct<T>(retrieved: seq<T>, expected: set<T>, n: nat)
    requires n <= |retrieved| && Distinct(retrieved)
    ensures |HitSet(retrieved, expected, n)| == Hits(retrieved, expected, n)
    ensures HitSet(retrieved, expected, n) <= expected
  {
    if n > 0 {
      HitsAreDistinct(retrieved, expected, n - 1);
      NewHit(retrieved, expected, n - 1);
    }
  }

  lemma {:induction false} SubsetSize<T>(a: set<T>, b: set<T>)
    requires a <= b
    ensures |a| <= |b|
  {
    assert b == a + (b - a);
  }

  /** Without duplicates there are at most as many hits as expected results. */
  lemma {:induction false} HitsBounded<T>(retrieved: seq<T>, expected: set<T>, n: nat)
    requires n <= |retrieved| && Distinct(retrieved)
    ensures Hits(retrieved, expected, n) <= |expected|
  {
    HitsAreDistinct(retrieved, expected, n);
    SubsetSize(HitSet(retrieved, expected, n), expected);
  }

  lemma {:induction false} IdealGrows(weight: Weight, a: nat, b: nat)
    requires Discount(weight) && a <= b
    ensures Ideal(weight, a) <= Ideal(weight, b)
    ensures a < b ==> Ideal(weight, a) < Ideal(weight, b)
    ensures b > 0 ==> Ideal(weight, b) > 0.0
  {
    if b > 0 {
      assert weight(b) > 0.0;
      IdealGrows(weight, if a < b then a else b - 1, b - 1);
    }
  }

  /** The first `n` results are all expected. */
  predicate AllExpected<T(==)>(retrieved: seq<T>, expected: set<T>, n: nat)
    requires n <= |retrieved|
  {
    Hits(retrieved, expected, n) == n
  }

  lemma {:induction false} AllExpectedMeaning<T>(retrieved: seq<T>, expected: set<T>, n: nat)
    requires n <= |retrieved|
    ensures AllExpected(retrieved, expected, n) <==> forall i :: 0 <= i < n ==> retrieved[i] in expected
  {
    if n > 0 { AllExpectedMeaning(retrieved, expected, n - 1); }
  }

  /** Rearrangement: hits are worth at most what they would be in the first places, and that
      much exactly when they are in the first places. */
  lemma {:induction false} FrontIsBest<T>(retrieved: seq<T>, expected: set<T>, weight: Weight, n: nat)
    requires n <= |retrieved| && Discount(weight)
    ensures var h := Hits(retrieved, expected, n);
            && 0.0 <= Dcg(retrieved, expected, weight, n) <= Ideal(weight, h)
            && (Dcg(retrieved, expected, weight, n) == Ideal(weight, h) <==> AllExpected(retrieved, expected, h))
  {
    if n > 0 {
      FrontIsBest(retrieved, expected, weight, n - 1);
      var before := Hits(retrieved, expected, n - 1);
      if retrieved[n - 1] in expected {
        assert weight(n) > 0.0;
        if before + 1 < n {
          assert weight(before + 1) > weight(n);
          HitsAfterGap(retrieved, expected, before + 1, n);
        }
      }
    }
  }

  /** With fewer hits than places, the first `h` places cannot all be hits if the last one is. */
  lemma {:induction false} HitsAfterGap<T>(retrieved: seq<T>, expected: set<T>, h: nat, n: nat)
    requires 0 < h < n <= |retrieved| && Hits(retrieved, expected, n) == h && retrieved[n - 1] in expected
    ensures Hits(retrieved, expected, h) < h
  {
    HitsMonotone(retrieved, expected, h, n - 1);
  }

  lemma {:induction false} HitsMonotone<T>(retrieved: seq<T>, expected: set<T>, a: nat, b: nat)
    requires a <= b <= |retrieved|
    ensures Hits(retrieved, expected, a) <= Hits(retrieved, expected, b)
  {
    if a < b { HitsMonotone(retrieved, expected, a, b - 1); }
  }

  lemma {:induction false} Quotient(a: real, b: real)
    requires 0.0 <= a && b > 0.0
    ensures 0.0 <= a / b
    ensures a <= b <==> a / b <= 1.0
    ensures a == b <==> a / b == 1.0
    ensures a == 0.0 <==> a / b == 0.0
  {
    assert a == (a / b) * b;
  }

  /** No more hits in the first k places than expected results and places. */
  predicate HitsFit<T(==)>(retrieved: seq<T>, expected: set<T>, k: int) {
    Hits(retrieved, expected, PrefixLength(|retrieved|, k)) <= Min(|expected|, k)
  }

  lemma {:induction false} FittingScore<T>(retrieved: seq<T>, expected: set<T>, weight: Weight, k: int)
    requires Discount(weight) && expected != {} && k >= 1 && HitsFit(retrieved, expected, k)
    ensures 0.0 <= Ndcg(retrieved, expected, weight, k) <= 1.0
  {
    var n, m := PrefixLength(|retrieved|, k), Min(|expected|, k);
    assert |expected| > 0;
    FrontIsBest(retrieved, expected, weight, n);
    IdealGrows(weight, Hits(retrieved, expected, n), m);
    Quotient(Dcg(retrieved, expected, weight, n), Ideal(weight, m));
  }

  /** Rank weights close to 1: c / r above it, at rank r. */
  function Flat(c: real): Weight {
    r => if r >= 1 then 1.0 + c / r as real else 2.0
  }

  lemma {:induction false} FractionFalls(c: real, r: int, s: int)
    requires c > 0.0 && 1 <= r < s
    ensures c / r as real > c / s as real > 0.0
  {
    var x, y := r as real, s as real;
    assert c / x - c / y == c * (y - x) / (x * y);
    assert c * (y - x) > 0.0 && x * y > 0.0;
  }

  lemma {:induction false} FlatDiscounts(c: real)
    requires c > 0.0
    ensures Discount(Flat(c))
  {
    forall r | r >= 1
      ensures Flat(c)(r) > 0.0
    {
      FractionFalls(c, r, r + 1);
    }
    forall r, s | 1 <= r < s
      ensures Flat(c)(r) > Flat(c)(s)
    {
      FractionFalls(c, r, s);
    }
  }

  lemma {:induction false} FlatDcg<T>(retrieved: seq<T>, expected: set<T>, c: real, n: nat)
    requires n <= |retrieved| && c > 0.0
    ensures Dcg(retrieved, expected, Flat(c), n) >= Hits(retrieved, expected, n) as real
  {
    if n > 0 {
      FlatDcg(retrieved, expected, c, n - 1);
      FractionFalls(c, n, n + 1);
    }
  }

  lemma {:induction false} FlatIdeal(c: real, m: nat)
    requires c > 0.0
    ensures Ideal(Flat(c), m) <= m as real + m as real * c
  {
    if m > 0 {
      FlatIdeal(c, m - 1);
      FractionBelow(c, m);
      assert m as real * c == (m - 1) as real * c + c;
    }
  }

  lemma {:induction false} FractionBelow(c: real, r: int)
    requires c > 0.0 && r >= 1
    ensures c / r as real <= c
  {
    if r > 1 { FractionFalls(c, 1, r); }
  }

  lemma {:induction false} OneShare(m: nat) returns (c: real)
    ensures 0.0 < c <= 1.0 && m as real + m as real * c < m as real + 1.0
  {
    c := 1.0 / (m + 1) as real;
    assert (m + 1) as real * c == 1.0;
    assert m as real * c == 1.0 - c;
  }

  /** One hit too many scores above 1 for some weight. */
  lemma {:induction false} TooManyHits<T>(retrieved: seq<T>, expected: set<T>, k: int) returns (weight: Weight)
    requires expected != {} && k >= 1 && !HitsFit(retrieved, expected, k)
    ensures Discount(weight) && Ndcg(retrieved, expected, weight, k) > 1.0
  {
    hide Dcg, Ideal, Hits, Discount, Flat;
    assert |expected| > 0;
    var n, m: nat := PrefixLength(|retrieved|, k), Min(|expected|, k);
    var c := OneShare(m);
    weight := Flat(c);
    FlatDiscounts(c);
    FlatDcg(retrieved, expected, c, n);
    FlatIdeal(c, m);
    assert Hits(retrieved, expected, n) >= m + 1;
    IdealGrows(weight, 0, m);
    Quotient(Dcg(retrieved, expected, weight, n), Ideal(weight, m));
  }

  /** The score is at most 1 for every rank weight exactly when the first k places hold no more
      hits than there are expected results and places, duplicates counted. */
  lemma {:induction false} NdcgBoundExactly<T>(retrieved: seq<T>, expected: set<T>, k: int)
    requires expected != {} && k >= 1
    ensures (forall weight: Weight | Discount(weight) :: Ndcg(retrieved, expected, weight, k) <= 1.0)
            <==> HitsFit(retrieved, expected, k)
  {
    if HitsFit(retrieved, expected, k) {
      forall weight: Weight | Discount(weight)
        ensures Ndcg(retrieved, expected, weight, k) <= 1.0
      {
        FittingScore(retrieved, expected, weight, k);
      }
    } else {
      var weight := TooManyHits(retrieved, expected, k);
    }
  }

  /** For lists without duplicates the score lies in [0, 1], and it is 1 exactly when the first
      min(|expected|, k) results are all there and all expected. */
  lemma {:induction false} NdcgBound<T>(retrieved: seq<T>, expected: set<T>, weight: Weight, k: int)
    requires Distinct(retrieved) && Discount(weight) && expected != {}
    ensures 0.0 <= Ndcg(retrieved, expected, weight, k) <= 1.0
    ensures var m := Min(|expected|, k);
            Ndcg(retrieved, expected, weight, k) == 1.0
            <==> k >= 1 && m <= |retrieved| && forall i :: 0 <= i < m ==> retrieved[i] in expected
  {
    if k >= 1 {
      assert |expected| > 0;
      var n, m := PrefixLength(|retrieved|, k), Min(|expected|, k);
      var h := Hits(retrieved, expected, n);
      HitsBounded(retrieved, expected, n);
      FittingScore(retrieved, expected, weight, k);
      FrontIsBest(retrieved, expected, weight, n);
      IdealGrows(weight, h, m);
      Quotient(Dcg(retrieved, expected, weight, n), Ideal(weight, m));
      if m <= |retrieved| {
        AllExpectedMeaning(retrieved, expected, m);
        HitsMonotone(retrieved, expected, m, n);
      }
      AllExpectedMeaning(retrieved, expected, h);
    } else {
      assert Ideal(weight, Min(|expected|, k)) == 0.0;
    }
  }

  lemma {:induction false} DcgPositive<T>(retrieved: seq<T>, expected: set<T>, weight: Weight, n: nat)
    requires n <= |retrieved| && Discount(weight)
    ensures Dcg(retrieved, expected, weight, n) >= 0.0
    ensures Dcg(retrieved, expected, weight, n) > 0.0 <==> exists i :: 0 <= i < n && retrieved[i] in expected
  {
    if n > 0 {
      assert weight(n) > 0.0;
      DcgPositive(retrieved, expected, weight, n - 1);
    }
  }

  lemma {:induction false} DcgOfOne<T>(retrieved: seq<T>, x: T, weight: Weight, n: nat, p: nat)
    requires n <= |retrieved| && p < |retrieved| && retrieved[p] == x
    requires forall i :: 0 <= i < |retrieved| && i != p ==> retrieved[i] != x
    ensures Dcg(retrieved, {x}, weight, n) == if p < n then weight(p + 1) else 0.0
  {
    if n > 0 { DcgOfOne(retrieved, x, weight, n - 1, p); }
  }

  /** One expected result at rank `p + 1`: the score is the weight of its rank over that of the first
      rank within the cut-off, and zero beyond it. */
  lemma {:induction false} SingleExpected<T>(retrieved: seq<T>, x: T, weight: Weight, k: int, p: nat)
    requires Discount(weight) && k >= 1 && p < |retrieved| && retrieved[p] == x
    requires forall i :: 0 <= i < |retrieved| && i != p ==> retrieved[i] != x
    ensures Ndcg(retrieved, {x}, weight, k) == if p < k then weight(p + 1) / weight(1) else 0.0
    ensures Mrr(retrieved, {x}) == 1.0 / (p + 1) as real
    ensures Recall(retrieved, {x}, k) == if p < k then 1.0 else 0.0
  {
    DcgOfOne(retrieved, x, weight, PrefixLength(|retrieved|, k), p);
    assert Ideal(weight, 1) == Ideal(weight, 0) + weight(1);
    assert FirstExpected(retrieved, {x}, 0) == p;
  }

  /** The three metrics agree on what counts as found: for every cut-off of at least one, recall
      is 1 exactly when nDCG is positive, and exactly when the reciprocal rank is at least 1/k. */
  lemma {:induction false} MetricsAgree<T>(retrieved: seq<T>, expected: set<T>, weight: Weight, k: int)
    requires Discount(weight) && k >= 1
    ensures Recall(retrieved, expected, k) == 1.0 <==> Ndcg(retrieved, expected, weight, k) > 0.0
    ensures Recall(retrieved, expected, k) == 1.0 <==> Mrr(retrieved, expected) >= 1.0 / k as real
  {
    var n := PrefixLength(|retrieved|, k);
    DcgPositive(retrieved, expected, weight, n);
    var p := FirstExpected(retrieved, expected, 0);
    ReciprocalOrder(p + 1, k);
    if expected != {} {
      var m := Min(|expected|, k);
      assert |expected| > 0;
      IdealGrows(weight, 0, m);
      Quotient(Dcg(retrieved, expected, weight, n), Ideal(weight, m));
    }
  }

  lemma {:induction false} ReciprocalOrder(a: int, b: int)
    requires a >= 1 && b >= 1
    ensures 1.0 / a as real >= 1.0 / b as real <==> a <= b
    ensures 1.0 / b as real > 0.0
  {
    var x, y := a as real, b as real;
    assert 1.0 / x - 1.0 / y == (y - x) / (x * y);
    assert x * y > 0.0;
  }

  // ---------------------------------------------------------------- the evaluated list

  /** The retrieved ids the evaluation scores: those of the evidence. */
  function EvidenceIds(evidence: seq<Ranked>): seq<ChunkId> {
    seq(|evidence|, i requires 0 <= i < |evidence| => evidence[i].hit.chunkId)
  }

  /** Whatever the searches return, the evidence the pipeline hands to the evaluation scores
      within [0, 1]. */
  lemma {:induction false} EvaluatedBound(
    lists: seq<Option<seq<Hit>>>, limit: int, arabic: seq<real>, original: seq<real>, enabled: bool, floor: real,
    topN: int, expected: set<ChunkId>, weight: Weight, k: int)
    requires Discount(weight)
    ensures var evidence := Evidence(Rerank(Merged(lists, limit), arabic, original, enabled), enabled, floor, topN);
            0.0 <= Ndcg(EvidenceIds(evidence), expected, weight, k) <= 1.0
  {
    hide Evidence, Rerank, Merged, Ndcg;
    PipelineSound(lists, limit, arabic, original, enabled, floor, topN);
    var evidence := Evidence(Rerank(Merged(lists, limit), arabic, original, enabled), enabled, floor, topN);
    DistinctIds(evidence);
    if expected != {} {
      NdcgBound(EvidenceIds(evidence), expected, weight, k);
    } else {
      NothingExpected(EvidenceIds(evidence), weight, k);
    }
  }

  lemma {:induction false} DistinctIds(evidence: seq<Ranked>)
    requires DistinctBy(evidence, RankedId)
    ensures Distinct(EvidenceIds(evidence))
  {
    forall i, j | 0 <= i < j < |evidence|
      ensures evidence[i].hit.chunkId != evidence[j].hit.chunkId
    {
      assert RankedId(evidence[i]) != RankedId(evidence[j]);
    }
  }

  lemma {:induction false} NothingExpected<T>(retrieved: seq<T>, weight: Weight, k: int)
    ensures Ndcg(retrieved, {}, weight, k) == 0.0
  {
  }
}
