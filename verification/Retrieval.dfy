/** From concurrent search results to evidence: merge, rerank, compress. */
module Retrieval {
  import opened Ids
  import opened Sequences
  import opened Sorting

  /** What stands for a near-duplicate class: the hash of book, topic and text prefix. */
  datatype Signature = Signature(digest: string)

  datatype Hit = Hit(chunkId: ChunkId, score: real, denseScore: Option<real>, signature: Signature)

  // ---------------------------------------------------------------- merging

  /** The insertion-ordered dictionary of best hits. */
  datatype Best = Best(order: seq<ChunkId>, hits: map<ChunkId, Hit>)

  function AddHit(best: Best, hit: Hit): Best {
    if hit.chunkId !in best.hits then
      Best(best.order + [hit.chunkId], best.hits[hit.chunkId := hit])
    else if hit.score > best.hits[hit.chunkId].score then
      best.(hits := best.hits[hit.chunkId := hit])
    else best
  }

  function BestOf(hits: seq<Hit>): Best {
    if hits == [] then Best([], map[]) else AddHit(BestOf(hits[..|hits| - 1]), Last(hits))
  }

  /** All hits of the first `n` result lists; a failed search has none. */
  function AllHits(lists: seq<Option<seq<Hit>>>, n: nat): seq<Hit>
    requires n <= |lists|
  {
    if n == 0 then []
    else AllHits(lists, n - 1) + (match lists[n - 1] case Some(hits) => hits case None => [])
  }

  predicate BestSane(best: Best) {
    && (forall i :: 0 <= i < |best.order| ==> best.order[i] in best.hits)
    && (forall i, j :: 0 <= i < j < |best.order| ==> best.order[i] != best.order[j])
    && (forall id :: id in best.hits ==> id in best.order && best.hits[id].chunkId == id)
  }

  lemma {:induction false} AddHitSane(best: Best, hit: Hit)
    requires BestSane(best)
    ensures BestSane(AddHit(best, hit))
  {
    var after := AddHit(best, hit);
    if hit.chunkId !in best.hits {
      assert after.order[|best.order|] == hit.chunkId;
      forall id | id in after.hits
        ensures id in after.order
      {
        if id != hit.chunkId { assert id in best.order; }
      }
    }
  }

  lemma {:induction false} BestOfSane(hits: seq<Hit>)
    ensures BestSane(BestOf(hits))
  {
    if hits != [] {
      BestOfSane(hits[..|hits| - 1]);
      AddHitSane(BestOf(hits[..|hits| - 1]), Last(hits));
    }
  }

  /** No hit outscores the one held for its chunk. */
  predicate Dominates(best: Best, hits: seq<Hit>) {
    forall i :: 0 <= i < |hits| ==>
      hits[i].chunkId in best.hits && hits[i].score <= best.hits[hits[i].chunkId].score
  }

  /** What is held are hits of the lists. */
  predicate DrawnFrom(best: Best, hits: seq<Hit>) {
    forall id :: id in best.hits ==> best.hits[id] in hits
  }

  lemma {:induction false} BestDominates(hits: seq<Hit>)
    ensures Dominates(BestOf(hits), hits)
  {
    if hits != [] {
      var front := hits[..|hits| - 1];
      BestDominates(front);
      var after := BestOf(hits);
      forall i | 0 <= i < |hits|
        ensures hits[i].chunkId in after.hits && hits[i].score <= after.hits[hits[i].chunkId].score
      {
        if i < |front| { assert hits[i] == front[i]; }
      }
    }
  }

  lemma {:induction false} BestDrawnFrom(hits: seq<Hit>)
    ensures DrawnFrom(BestOf(hits), hits)
  {
    if hits != [] {
      var front := hits[..|hits| - 1];
      BestDrawnFrom(front);
      assert hits == front + [Last(hits)];
    }
  }

  function ValuesOf(best: Best, n: nat): seq<Hit>
    requires n <= |best.order| && BestSane(best)
  {
    if n == 0 then [] else ValuesOf(best, n - 1) + [best.hits[best.order[n - 1]]]
  }

  predicate ScoreDescending(a: Hit, b: Hit) { a.score >= b.score }

  /** The merged hits before the cut. */
  function Ordered(hits: seq<Hit>): seq<Hit> {
    BestOfSane(hits);
    Sort(ValuesOf(BestOf(hits), |BestOf(hits).order|), ScoreDescending)
  }

  function Merged(lists: seq<Option<seq<Hit>>>, limit: int): seq<Hit> {
    var ordered := Ordered(AllHits(lists, |lists|));
    ordered[..PrefixLength(|ordered|, limit)]
  }

  lemma {:induction false} BestOfAppend(hits: seq<Hit>, hit: Hit)
    ensures BestOf(hits + [hit]) == AddHit(BestOf(hits), hit)
  {
    assert (hits + [hit])[..|hits|] == hits;
  }

  /** Folds one result list into the dictionary. */
  method MergeList(order: seq<ChunkId>, hits: map<ChunkId, Hit>, list: seq<Hit>, ghost before: seq<Hit>)
    returns (newOrder: seq<ChunkId>, newHits: map<ChunkId, Hit>)
    requires Best(order, hits) == BestOf(before)
    ensures Best(newOrder, newHits) == BestOf(before + list)
  {
    newOrder, newHits := order, hits;
    assert before + list[..0] == before;
    for i := 0 to |list|
      invariant Best(newOrder, newHits) == BestOf(before + list[..i])
    {
      var hit := list[i];
      BestOfAppend(before + list[..i], hit);
      AppendToPrefix(before, list, i);
      if hit.chunkId !in newHits {
        newOrder, newHits := newOrder + [hit.chunkId], newHits[hit.chunkId := hit];
      } else if hit.score > newHits[hit.chunkId].score {
        newHits := newHits[hit.chunkId := hit];
      }
    }
    assert list[..|list|] == list;
  }

  method MergeHits(lists: seq<Option<seq<Hit>>>, limit: int) returns (merged: seq<Hit>)
    ensures merged == Merged(lists, limit)
  {
    var order: seq<ChunkId>, hits: map<ChunkId, Hit> := [], map[];
    for i := 0 to |lists|
      invariant Best(order, hits) == BestOf(AllHits(lists, i))
    {
      match lists[i]
      case Some(list) =>
        order, hits := MergeList(order, hits, list, AllHits(lists, i));
      case None =>
        assert AllHits(lists, i + 1) == AllHits(lists, i);
    }
    BestOfSane(AllHits(lists, |lists|));
    var values := ValuesOf(Best(order, hits), |order|);
    var ordered := Sort(values, ScoreDescending);
    merged := ordered[..PrefixLength(|ordered|, limit)];
  }

  lemma {:induction false} ValueAt(best: Best, n: nat, i: nat)
    requires i < n <= |best.order| && BestSane(best)
    ensures |ValuesOf(best, n)| == n && ValuesOf(best, n)[i] == best.hits[best.order[i]]
  {
    if i < n - 1 {
      ValueAt(best, n - 1, i);
    } else if n > 1 {
      ValueAt(best, n - 1, 0);
    }
  }

  function IdOf(hit: Hit): ChunkId { hit.chunkId }

  lemma {:induction false} HitOrderIsTotal()
    ensures TotalPreorder(ScoreDescending)
  {
  }

  /** Before the cut: one hit per chunk, each the best of its chunk, by falling score. */
  lemma {:induction false} OrderedFacts(hits: seq<Hit>)
    ensures DistinctBy(Ordered(hits), IdOf) && Sorted(Ordered(hits), ScoreDescending)
    ensures forall h :: h in Ordered(hits) <==> h.chunkId in BestOf(hits).hits && BestOf(hits).hits[h.chunkId] == h
    ensures |Ordered(hits)| == |BestOf(hits).order|
  {
    hide BestOf, Sort, TotalPreorder, AddHit;
    BestOfSane(hits);
    HitOrderIsTotal();
    var best := BestOf(hits);
    var values := ValuesOf(best, |best.order|);
    if best.order != [] { ValueAt(best, |best.order|, 0); }
    forall i | 0 <= i < |values|
      ensures values[i] == best.hits[best.order[i]]
    {
      ValueAt(best, |best.order|, i);
    }
    SortFacts(values, ScoreDescending);
    SortDistinct(values, ScoreDescending, IdOf);
    forall h
      ensures h in Ordered(hits) <==> h.chunkId in best.hits && best.hits[h.chunkId] == h
    {
      SortMembers(values, ScoreDescending, h);
      if h.chunkId in best.hits && best.hits[h.chunkId] == h {
        var i :| 0 <= i < |best.order| && best.order[i] == h.chunkId;
        assert values[i] == h;
      }
    }
  }

  /** The merge keeps each chunk once, with a hit that none of its others outscores, by falling
      score. */
  lemma {:induction false} MergeKeepsBest(lists: seq<Option<seq<Hit>>>, limit: int)
    ensures var all, merged := AllHits(lists, |lists|), Merged(lists, limit);
            && DistinctBy(merged, IdOf) && Sorted(merged, ScoreDescending)
            && |merged| == PrefixLength(|BestOf(all).order|, limit)
            && forall i :: 0 <= i < |merged| ==> merged[i] in all && BestOfItsChunk(all, merged[i])
  {
    var all := AllHits(lists, |lists|);
    OrderedFacts(all);
    var ordered, merged := Ordered(all), Merged(lists, limit);
    forall i | 0 <= i < |merged|
      ensures merged[i] in all && BestOfItsChunk(all, merged[i])
    {
      assert ordered[i] in ordered;
      HeldIsBest(all, merged[i]);
    }
  }

  lemma {:induction false} HeldIsBest(all: seq<Hit>, hit: Hit)
    requires hit.chunkId in BestOf(all).hits && BestOf(all).hits[hit.chunkId] == hit
    ensures hit in all && BestOfItsChunk(all, hit)
  {
    BestDrawnFrom(all);
    BestDominates(all);
  }

  /** A chunk that is dropped has no hit that outscores a kept one, and a chunk is only dropped
      when `limit` chunks are kept. */
  lemma {:induction false} MergeDropsLowest(lists: seq<Option<seq<Hit>>>, limit: nat, h: Hit)
    requires h in AllHits(lists, |lists|)
    ensures var merged := Merged(lists, limit);
            Kept(merged, h) || (NoneBelow(merged, h.score) && |merged| == limit)
  {
    var all := AllHits(lists, |lists|);
    DroppedIsLow(all, Ordered(all), |Merged(lists, limit)|, h);
  }

  /** The hits of all searches, list after list, a failed search counting as an empty one. */
  lemma {:induction false} AllHitsListed(lists: seq<Option<seq<Hit>>>, n: nat)
    requires n <= |lists|
    ensures AllHits(lists, n)
            == Flatten(seq(n, i requires 0 <= i < n => match lists[i] case Some(hits) => hits case None => []))
  {
    if n > 0 {
      AllHitsListed(lists, n - 1);
      var front := seq(n - 1, i requires 0 <= i < n - 1 => match lists[i] case Some(hits) => hits case None => []);
      var own := match lists[n - 1] case Some(hits) => hits case None => [];
      assert seq(n, i requires 0 <= i < n => match lists[i] case Some(hits) => hits case None => []) == front + [own];
      FlattenConcat(front, [own]);
      FlattenSingle(own);
    }
  }

  /** The hit held for a chunk is the first of its best ones. */
  lemma {:induction false} HeldIsEarliest(hits: seq<Hit>, id: ChunkId) returns (p: nat)
    requires id in BestOf(hits).hits
    ensures p < |hits| && hits[p] == BestOf(hits).hits[id] && hits[p].chunkId == id
    ensures forall q :: 0 <= q < p && hits[q].chunkId == id ==> hits[q].score < hits[p].score
  {
    hide BestSane;
    var front, h := hits[..|hits| - 1], Last(hits);
    BestDominates(front);
    if h.chunkId == id && (id !in BestOf(front).hits || h.score > BestOf(front).hits[id].score) {
      p := |hits| - 1;
      forall q | 0 <= q < p && hits[q].chunkId == id
        ensures hits[q].score < hits[p].score
      {
        assert hits[q] == front[q];
      }
    } else {
      p := HeldIsEarliest(front, id);
      assert forall q :: 0 <= q <= p ==> hits[q] == front[q];
    }
  }

  /** A hit of chunk `first` occurs before any of chunk `second`. */
  predicate SeenFirst(hits: seq<Hit>, first: ChunkId, second: ChunkId) {
    exists p :: 0 <= p < |hits| && hits[p].chunkId == first
                && forall q :: 0 <= q <= p ==> hits[q].chunkId != second
  }

  lemma {:induction false} OrderIsFirstSeen(hits: seq<Hit>, a: nat, b: nat)
    requires a < b < |BestOf(hits).order|
    ensures SeenFirst(hits, BestOf(hits).order[a], BestOf(hits).order[b])
  {
    var front := hits[..|hits| - 1];
    var order, before := BestOf(hits).order, BestOf(front).order;
    BestOfSane(front);
    if b < |before| {
      OrderIsFirstSeen(front, a, b);
      var p :| 0 <= p < |front| && front[p].chunkId == order[a]
               && forall q :: 0 <= q <= p ==> front[q].chunkId != order[b];
      assert forall q :: 0 <= q <= p ==> hits[q] == front[q];
      assert hits[p].chunkId == order[a];
    } else {
      BestDominates(front);
      var p := HeldIsEarliest(front, order[a]);
      assert forall q :: 0 <= q <= p ==> hits[q] == front[q];
      assert hits[p].chunkId == order[a];
    }
  }

  /** Ties of the merge: a chunk is kept with the first of its best hits, and of chunks with equal
      scores the one met first comes first. */
  lemma {:induction false} MergeTies(lists: seq<Option<seq<Hit>>>, limit: int, i: nat) returns (p: nat)
    requires i < |Merged(lists, limit)|
    ensures var all, merged := AllHits(lists, |lists|), Merged(lists, limit);
            && p < |all| && all[p] == merged[i]
            && (forall q :: 0 <= q < p && all[q].chunkId == merged[i].chunkId ==> all[q].score < merged[i].score)
            && (forall j :: i < j < |merged| && merged[j].score == merged[i].score ==>
                  SeenFirst(all, merged[i].chunkId, merged[j].chunkId))
  {
    hide BestOf, Sort, SeenFirst;
    var all, merged := AllHits(lists, |lists|), Merged(lists, limit);
    OrderedFacts(all);
    assert Ordered(all)[i] in Ordered(all);
    p := HeldIsEarliest(all, merged[i].chunkId);
    forall j | i < j < |merged| && merged[j].score == merged[i].score
      ensures SeenFirst(all, merged[i].chunkId, merged[j].chunkId)
    {
      TiesAsSeen(all, i, j);
    }
  }

  lemma {:induction false} TiesAsSeen(all: seq<Hit>, i: nat, j: nat)
    requires i < j < |Ordered(all)| && Ordered(all)[i].score == Ordered(all)[j].score
    ensures SeenFirst(all, Ordered(all)[i].chunkId, Ordered(all)[j].chunkId)
  {
    hide BestOf, Sort, SeenFirst, TotalPreorder;
    BestOfSane(all);
    HitOrderIsTotal();
    var best := BestOf(all);
    var values := ValuesOf(best, |best.order|);
    OrderedFacts(all);
    if best.order != [] { ValueAt(best, |best.order|, 0); }
    var a, b := StablePositions(values, ScoreDescending, i, j);
    ValueAt(best, |best.order|, a);
    ValueAt(best, |best.order|, b);
    OrderIsFirstSeen(all, a, b);
  }

  predicate BestOfItsChunk(all: seq<Hit>, hit: Hit) {
    forall i :: 0 <= i < |all| && all[i].chunkId == hit.chunkId ==> all[i].score <= hit.score
  }

  predicate Kept(merged: seq<Hit>, hit: Hit) {
    exists i :: 0 <= i < |merged| && merged[i].chunkId == hit.chunkId
  }

  predicate NoneBelow(merged: seq<Hit>, score: real) {
    forall i :: 0 <= i < |merged| ==> merged[i].score >= score
  }

  lemma {:induction false} HeldPosition(all: seq<Hit>, h: Hit) returns (p: nat)
    requires h in all
    ensures p < |Ordered(all)| && Ordered(all)[p].chunkId == h.chunkId && Ordered(all)[p].score >= h.score
  {
    BestDominates(all);
    OrderedFacts(all);
    BestOfSane(all);
    var best := BestOf(all).hits[h.chunkId];
    assert best in Ordered(all);
    p :| 0 <= p < |Ordered(all)| && Ordered(all)[p] == best;
  }

  lemma {:induction false} DroppedIsLow(all: seq<Hit>, ordered: seq<Hit>, n: nat, h: Hit)
    requires ordered == Ordered(all) && n <= |ordered| && h in all
    ensures Kept(ordered[..n], h) || (NoneBelow(ordered[..n], h.score) && n < |ordered|)
  {
    var p := HeldPosition(all, h);
    OrderedFacts(all);
    if p < n {
      assert ordered[..n][p].chunkId == h.chunkId;
    } else {
      forall i | 0 <= i < n
        ensures ordered[..n][i].score >= h.score
      {
        assert ScoreDescending(ordered[i], ordered[p]);
      }
    }
  }

  // ---------------------------------------------------------------- reranking

  datatype Ranked = Ranked(maxScore: real, arabicScore: Option<real>, originalScore: Option<real>, hit: Hit)

  predicate RankDescending(a: Ranked, b: Ranked) { a.maxScore >= b.maxScore }

  function MaxReal(a: real, b: real): real { if a >= b then a else b }

  /** The first `n` hits with their three scores; scores pair up with hits as `zip` does. */
  function Scored(merged: seq<Hit>, arabic: seq<real>, original: seq<real>, n: nat): seq<Ranked>
    requires n <= |merged| && n <= |arabic| && n <= |original|
  {
    if n == 0 then []
    else
      var hit := merged[n - 1];
      var dense := if hit.denseScore.Some? then hit.denseScore.value else 0.0;
      Scored(merged, arabic, original, n - 1)
      + [Ranked(MaxReal(MaxReal(arabic[n - 1], original[n - 1]), dense),
                Some(arabic[n - 1]), Some(original[n - 1]), hit)]
  }

  function Unranked(merged: seq<Hit>): seq<Ranked> {
    seq(|merged|, i requires 0 <= i < |merged| => Ranked(merged[i].score, None, None, merged[i]))
  }

  function Rerank(merged: seq<Hit>, arabic: seq<real>, original: seq<real>, enabled: bool): seq<Ranked> {
    if !enabled then Unranked(merged)
    else Sort(Scored(merged, arabic, original, Min(|merged|, Min(|arabic|, |original|))), RankDescending)
  }

  predicate Descending(ranked: seq<Ranked>) {
    forall i, j :: 0 <= i < j < |ranked| ==> ranked[i].maxScore >= ranked[j].maxScore
  }

  function RankedId(r: Ranked): ChunkId { r.hit.chunkId }

  /** The score is the largest of the three, and the other two are kept beside it. */
  predicate ScoredFrom(r: Ranked, hit: Hit, arabic: real, original: real) {
    var dense := if hit.denseScore.Some? then hit.denseScore.value else 0.0;
    && r.hit == hit && r.arabicScore == Some(arabic) && r.originalScore == Some(original)
    && r.maxScore >= arabic && r.maxScore >= original && r.maxScore >= dense
    && (r.maxScore == arabic || r.maxScore == original || r.maxScore == dense)
  }

  /** Scored so from one of the first `n` hits and the scores at its place. */
  predicate ScoredAmong(r: Ranked, merged: seq<Hit>, arabic: seq<real>, original: seq<real>, n: nat)
    requires n <= |merged| && n <= |arabic| && n <= |original|
  {
    exists m :: 0 <= m < n && ScoredFrom(r, merged[m], arabic[m], original[m])
  }

  lemma {:induction false} ScoredAt(merged: seq<Hit>, arabic: seq<real>, original: seq<real>, n: nat, i: nat)
    requires i < n <= |merged| && n <= |arabic| && n <= |original|
    ensures |Scored(merged, arabic, original, n)| == n
    ensures var r := Scored(merged, arabic, original, n)[i];
            ScoredFrom(r, merged[i], arabic[i], original[i])
  {
    if i < n - 1 {
      ScoredAt(merged, arabic, original, n - 1, i);
    } else if n > 1 {
      ScoredAt(merged, arabic, original, n - 1, 0);
    }
  }

  lemma {:induction false} ScoredShape(merged: seq<Hit>, arabic: seq<real>, original: seq<real>, n: nat)
    requires n <= |merged| && n <= |arabic| && n <= |original|
    ensures |Scored(merged, arabic, original, n)| == n
    ensures forall i :: 0 <= i < n ==> Scored(merged, arabic, original, n)[i].hit == merged[i]
  {
    if n > 0 { ScoredAt(merged, arabic, original, n, 0); }
    forall i | 0 <= i < n
      ensures Scored(merged, arabic, original, n)[i].hit == merged[i]
    {
      ScoredAt(merged, arabic, original, n, i);
    }
  }

  /** Scores are those of the hits: with reranking on, each handed on hit is scored by the three
      scores at its place, and as many are as there are hits and scores of both kinds; with it off,
      the merged hits keep order and score. */
  lemma {:induction false} RerankScores(merged: seq<Hit>, arabic: seq<real>, original: seq<real>, enabled: bool)
    ensures var ranked := Rerank(merged, arabic, original, enabled);
            if enabled then
              && |ranked| == Min(|merged|, Min(|arabic|, |original|))
              && forall i :: 0 <= i < |ranked| ==> ScoredAmong(ranked[i], merged, arabic, original, |ranked|)
            else
              && |ranked| == |merged|
              && forall i :: 0 <= i < |ranked| ==> ranked[i] == Ranked(merged[i].score, None, None, merged[i])
  {
    hide Sort, TotalPreorder, Scored, ScoredFrom;
    if enabled {
      var n := Min(|merged|, Min(|arabic|, |original|));
      var scored, ranked := Scored(merged, arabic, original, n), Rerank(merged, arabic, original, enabled);
      ScoredShape(merged, arabic, original, n);
      RankOrderIsTotal();
      SortFacts(scored, RankDescending);
      forall i | 0 <= i < |ranked|
        ensures ScoredAmong(ranked[i], merged, arabic, original, n)
      {
        SortMembers(scored, RankDescending, ranked[i]);
        var m :| 0 <= m < |scored| && scored[m] == ranked[i];
        ScoredAt(merged, arabic, original, n, m);
      }
    }
  }

  /** Reranking, on or off, hands on a descending list of the merged hits with distinct chunks;
      switched on with one score per hit, it hands on all of them. */
  lemma {:induction false} RerankFacts(merged: seq<Hit>, arabic: seq<real>, original: seq<real>, enabled: bool)
    requires DistinctBy(merged, IdOf) && Sorted(merged, ScoreDescending)
    ensures var ranked := Rerank(merged, arabic, original, enabled);
            && Descending(ranked) && DistinctBy(ranked, RankedId)
            && (forall i :: 0 <= i < |ranked| ==> ranked[i].hit in merged)
            && (|arabic| == |original| == |merged| ==> |ranked| == |merged|)
  {
    hide Sort, Insert, TotalPreorder, Scored;
    if enabled {
      var n := Min(|merged|, Min(|arabic|, |original|));
      var scored := Scored(merged, arabic, original, n);
      ScoredShape(merged, arabic, original, n);
      RankOrderIsTotal();
      SortFacts(scored, RankDescending);
      SortDistinct(scored, RankDescending, RankedId);
    }
  }

  lemma {:induction false} RankOrderIsTotal()
    ensures TotalPreorder(RankDescending)
  {
  }

  // ---------------------------------------------------------------- compression

  /** What scores at least the floor among the first `n`. */
  function AboveFloor(ranked: seq<Ranked>, floor: real, n: nat): seq<Ranked>
    requires n <= |ranked|
  {
    if n == 0 then []
    else AboveFloor(ranked, floor, n - 1) + (if ranked[n - 1].maxScore >= floor then [ranked[n - 1]] else [])
  }

  predicate SeenBefore(ranked: seq<Ranked>, n: nat, signature: Signature)
    requires n <= |ranked|
  {
    n > 0 && (ranked[n - 1].hit.signature == signature || SeenBefore(ranked, n - 1, signature))
  }

  /** The first of each signature among the first `n`. */
  function FirstOfEach(ranked: seq<Ranked>, n: nat): seq<Ranked>
    requires n <= |ranked|
  {
    if n == 0 then []
    else
      FirstOfEach(ranked, n - 1)
      + (if SeenBefore(ranked, n - 1, ranked[n - 1].hit.signature) then [] else [ranked[n - 1]])
  }

  /** The requested number of chunks, or the default when none or zero is requested. */
  function TopN(requested: Option<int>, fallback: int): int {
    if requested.None? || requested.value == 0 then fallback else requested.value
  }

  /** What passes the floor, when reranking is on. */
  function Eligible(ranked: seq<Ranked>, reranked: bool, floor: real): seq<Ranked> {
    if reranked then AboveFloor(ranked, floor, |ranked|) else ranked
  }

  /** Evidence in three independent steps: floor, deduplication, cut. At least one chunk
      passes the cut, since its size is checked only after a chunk is added. */
  function Evidence(ranked: seq<Ranked>, reranked: bool, floor: real, topN: int): seq<Ranked> {
    var eligible := Eligible(ranked, reranked, floor);
    var kept := FirstOfEach(eligible, |eligible|);
    kept[..Min(|kept|, Max(1, topN))]
  }

  lemma {:induction false} AboveIsPrefix(ranked: seq<Ranked>, floor: real, n: nat, m: nat)
    requires Descending(ranked) && n <= m <= |ranked|
    requires forall i :: 0 <= i < n ==> ranked[i].maxScore >= floor
    requires n < |ranked| ==> ranked[n].maxScore < floor
    ensures AboveFloor(ranked, floor, m) == ranked[..n]
  {
    if m > n {
      AboveIsPrefix(ranked, floor, n, m - 1);
      assert ranked[m - 1].maxScore <= ranked[n].maxScore;
    } else {
      AllAbove(ranked, floor, n);
    }
  }

  lemma {:induction false} AllAbove(ranked: seq<Ranked>, floor: real, n: nat)
    requires n <= |ranked| && forall i :: 0 <= i < n ==> ranked[i].maxScore >= floor
    ensures AboveFloor(ranked, floor, n) == ranked[..n]
  {
    if n > 0 {
      AllAbove(ranked, floor, n - 1);
      SliceAppend(ranked, 0, n - 1);
    }
  }

  lemma {:induction false} SeenInPrefix(ranked: seq<Ranked>, n: nat, m: nat, signature: Signature)
    requires m <= n <= |ranked|
    ensures SeenBefore(ranked[..n], m, signature) == SeenBefore(ranked, m, signature)
  {
    if m > 0 { SeenInPrefix(ranked, n, m - 1, signature); }
  }

  lemma {:induction false} FirstOfPrefix(ranked: seq<Ranked>, n: nat, m: nat)
    requires m <= n <= |ranked|
    ensures FirstOfEach(ranked[..n], m) == FirstOfEach(ranked, m)
  {
    if m > 0 {
      FirstOfPrefix(ranked, n, m - 1);
      SeenInPrefix(ranked, n, m - 1, ranked[m - 1].hit.signature);
    }
  }

  lemma {:induction false} FirstOfGrows(ranked: seq<Ranked>, n: nat, m: nat)
    requires n <= m <= |ranked|
    ensures FirstOfEach(ranked, n) <= FirstOfEach(ranked, m)
  {
    if n < m { FirstOfGrows(ranked, n, m - 1); }
  }

  /** Stopping at the first score below the floor is filtering by the floor. */
  lemma {:induction false} StopAtFloor(ranked: seq<Ranked>, floor: real, n: nat)
    requires Descending(ranked) && n <= |ranked|
    requires forall i :: 0 <= i < n ==> ranked[i].maxScore >= floor
    requires n < |ranked| ==> ranked[n].maxScore < floor
    ensures Eligible(ranked, true, floor) == ranked[..n]
    ensures FirstOfEach(Eligible(ranked, true, floor), n) == FirstOfEach(ranked, n)
  {
    AboveIsPrefix(ranked, floor, n, |ranked|);
    FirstOfPrefix(ranked, n, n);
  }

  /** Where the descending list first falls below the floor. */
  lemma {:induction false} FloorPosition(ranked: seq<Ranked>, floor: real, from: nat) returns (n: nat)
    requires from <= |ranked| && forall i :: 0 <= i < from ==> ranked[i].maxScore >= floor
    ensures from <= n <= |ranked| && forall i :: 0 <= i < n ==> ranked[i].maxScore >= floor
    ensures n < |ranked| ==> ranked[n].maxScore < floor
    decreases |ranked| - from
  {
    if from == |ranked| || ranked[from].maxScore < floor {
      n := from;
    } else {
      n := FloorPosition(ranked, floor, from + 1);
    }
  }

  lemma {:induction false} StopWhenFull(ranked: seq<Ranked>, reranked: bool, floor: real, topN: int, n: nat)
    requires Descending(ranked) && n <= |ranked|
    requires reranked ==> forall i :: 0 <= i < n ==> ranked[i].maxScore >= floor
    requires |FirstOfEach(ranked, n)| == Max(1, topN)
    ensures Evidence(ranked, reranked, floor, topN) == FirstOfEach(ranked, n)
  {
    if reranked {
      var m := FloorPosition(ranked, floor, n);
      StopAtFloor(ranked, floor, m);
      FirstOfGrows(ranked, n, m);
    } else {
      FirstOfGrows(ranked, n, |ranked|);
    }
  }

  predicate SeenAgrees(seen: set<Signature>, ranked: seq<Ranked>, n: nat)
    requires n <= |ranked|
  {
    forall i :: 0 <= i < |ranked| ==>
      (ranked[i].hit.signature in seen <==> SeenBefore(ranked, n, ranked[i].hit.signature))
  }

  /** The loop with its two early exits computes the three-step evidence. */
  method Compress(ranked: seq<Ranked>, reranked: bool, floor: real, requested: Option<int>, fallback: int)
    returns (chunks: seq<Ranked>)
    requires Descending(ranked)
    ensures chunks == Evidence(ranked, reranked, floor,
                               if requested.None? || requested == Some(0) then fallback else requested.value)
  {
    var topN := TopN(requested, fallback);
    var seen: set<Signature> := {};
    chunks := [];
    for i := 0 to |ranked|
      invariant chunks == FirstOfEach(ranked, i) && |chunks| < Max(1, topN)
      invariant SeenAgrees(seen, ranked, i)
      invariant reranked ==> forall j :: 0 <= j < i ==> ranked[j].maxScore >= floor
    {
      var item := ranked[i];
      if reranked && item.maxScore < floor {
        StopAtFloor(ranked, floor, i);
        return;
      }
      if item.hit.signature !in seen {
        seen := seen + {item.hit.signature};
        chunks := chunks + [item];
        if |chunks| >= topN {
          StopWhenFull(ranked, reranked, floor, topN, i + 1);
          return;
        }
      }
    }
    if reranked { StopAtFloor(ranked, floor, |ranked|); }
  }

  // ---------------------------------------------------------------- what the evidence guarantees

  predicate Occurs(ranked: seq<Ranked>, n: nat, r: Ranked)
    requires n <= |ranked|
  {
    n > 0 && (ranked[n - 1] == r || Occurs(ranked, n - 1, r))
  }

  lemma {:induction false} OccursAt(ranked: seq<Ranked>, n: nat, r: Ranked) returns (p: nat)
    requires n <= |ranked| && Occurs(ranked, n, r)
    ensures p < n && ranked[p] == r && SeenBefore(ranked, n, r.hit.signature)
  {
    if ranked[n - 1] == r { p := n - 1; } else { p := OccursAt(ranked, n - 1, r); }
  }

  lemma {:induction false} FirstOfOccurs(ranked: seq<Ranked>, n: nat, j: nat)
    requires n <= |ranked| && j < |FirstOfEach(ranked, n)|
    ensures Occurs(ranked, n, FirstOfEach(ranked, n)[j])
  {
    if j < |FirstOfEach(ranked, n - 1)| { FirstOfOccurs(ranked, n - 1, j); }
  }

  predicate DistinctSignatures(ranked: seq<Ranked>) {
    forall i, j :: 0 <= i < j < |ranked| ==> ranked[i].hit.signature != ranked[j].hit.signature
  }

  /** Keeping the first of each signature keeps order and distinct chunks. */
  lemma {:induction false} FirstOfFacts(ranked: seq<Ranked>, n: nat)
    requires n <= |ranked| && Descending(ranked) && DistinctBy(ranked, RankedId)
    ensures var kept := FirstOfEach(ranked, n);
            Descending(kept) && DistinctSignatures(kept) && DistinctBy(kept, RankedId)
  {
    if n > 0 {
      FirstOfFacts(ranked, n - 1);
      var before := FirstOfEach(ranked, n - 1);
      forall j | 0 <= j < |before|
        ensures before[j].maxScore >= ranked[n - 1].maxScore
        ensures RankedId(before[j]) != RankedId(ranked[n - 1])
        ensures SeenBefore(ranked, n - 1, before[j].hit.signature)
      {
        FirstOfOccurs(ranked, n - 1, j);
        var p := OccursAt(ranked, n - 1, before[j]);
      }
    }
  }

  /** Every item is kept or has a kept near-duplicate that scores no less. */
  lemma {:induction false} Represented(ranked: seq<Ranked>, n: nat, p: nat) returns (j: nat)
    requires p < n <= |ranked| && Descending(ranked)
    ensures j < |FirstOfEach(ranked, n)|
    ensures FirstOfEach(ranked, n)[j].hit.signature == ranked[p].hit.signature
    ensures FirstOfEach(ranked, n)[j].maxScore >= ranked[p].maxScore
  {
    if p < n - 1 {
      j := Represented(ranked, n - 1, p);
    } else if SeenBefore(ranked, p, ranked[p].hit.signature) {
      var q := SeenAt(ranked, p, ranked[p].hit.signature);
      j := Represented(ranked, n - 1, q);
    } else {
      j := |FirstOfEach(ranked, p)|;
    }
  }

  lemma {:induction false} SeenAt(ranked: seq<Ranked>, n: nat, signature: Signature) returns (q: nat)
    requires n <= |ranked| && SeenBefore(ranked, n, signature)
    ensures q < n && ranked[q].hit.signature == signature
  {
    if ranked[n - 1].hit.signature == signature { q := n - 1; } else { q := SeenAt(ranked, n - 1, signature); }
  }

  /** The evidence is a descending list of distinct chunks with distinct signatures, none below
      the floor when reranking is on, and no longer than asked for. */
  lemma {:induction false} EvidenceSound(ranked: seq<Ranked>, reranked: bool, floor: real, topN: int)
    requires Descending(ranked) && DistinctBy(ranked, RankedId)
    ensures var e := Evidence(ranked, reranked, floor, topN);
            && Descending(e) && DistinctSignatures(e) && DistinctBy(e, RankedId) && |e| <= Max(1, topN)
            && forall j :: 0 <= j < |e| ==> e[j] in ranked && (reranked ==> e[j].maxScore >= floor)
  {
    hide FirstOfEach, AboveFloor, SeenBefore;
    var n := |ranked|;
    if reranked {
      n := FloorPosition(ranked, floor, 0);
      StopAtFloor(ranked, floor, n);
    } else {
      assert ranked[..n] == ranked;
    }
    FirstOfFacts(ranked, n);
    FirstOfPrefix(ranked, n, n);
    var e := Evidence(ranked, reranked, floor, topN);
    forall j | 0 <= j < |e|
      ensures e[j] in ranked && (reranked ==> e[j].maxScore >= floor)
    {
      FirstOfOccurs(ranked, n, j);
      var p := OccursAt(ranked, n, e[j]);
    }
  }

  /** What the evidence leaves out is below the floor, or has a near-duplicate in the evidence
      that scores no less, or outscores nothing in an evidence that is full. */
  lemma {:induction false} LeftOutIsLow(ranked: seq<Ranked>, reranked: bool, floor: real, topN: int, p: nat)
    requires Descending(ranked) && DistinctBy(ranked, RankedId) && p < |ranked|
    ensures var e := Evidence(ranked, reranked, floor, topN);
            || (reranked && ranked[p].maxScore < floor)
            || (exists j :: 0 <= j < |e| && e[j].hit.signature == ranked[p].hit.signature
                            && e[j].maxScore >= ranked[p].maxScore)
            || (|e| == Max(1, topN) && forall j :: 0 <= j < |e| ==> e[j].maxScore >= ranked[p].maxScore)
  {
    var n := |ranked|;
    if reranked {
      n := FloorPosition(ranked, floor, 0);
      StopAtFloor(ranked, floor, n);
    } else {
      assert ranked[..n] == ranked;
    }
    FirstOfPrefix(ranked, n, n);
    if p < n {
      FirstOfFacts(ranked, n);
      var j := Represented(ranked, n, p);
      var e, kept := Evidence(ranked, reranked, floor, topN), FirstOfEach(ranked, n);
      if j < |e| { assert e[j] == kept[j]; }
    } else {
      assert ranked[p].maxScore <= ranked[n].maxScore;
    }
  }

  /** The item at `p` is the first with its signature. */
  predicate FirstWithSignature(ranked: seq<Ranked>, p: nat)
    requires p < |ranked|
  {
    forall q :: 0 <= q < p ==> ranked[q].hit.signature != ranked[p].hit.signature
  }

  lemma {:induction false} SeenIsEarlier(ranked: seq<Ranked>, p: nat)
    requires p < |ranked|
    ensures SeenBefore(ranked, p, ranked[p].hit.signature) <==> !FirstWithSignature(ranked, p)
  {
    if SeenBefore(ranked, p, ranked[p].hit.signature) {
      var q := SeenAt(ranked, p, ranked[p].hit.signature);
    } else {
      forall q | 0 <= q < p
        ensures ranked[q].hit.signature != ranked[p].hit.signature
      {
        NotSeen(ranked, p, ranked[p].hit.signature, q);
      }
    }
  }

  lemma {:induction false} NotSeen(ranked: seq<Ranked>, n: nat, signature: Signature, q: nat)
    requires q < n <= |ranked| && !SeenBefore(ranked, n, signature)
    ensures ranked[q].hit.signature != signature
  {
    if q < n - 1 { NotSeen(ranked, n - 1, signature, q); }
  }

  /** `kept` are the items of `ranked` at the positions `at`, in order, each the first with its
      signature. */
  predicate KeptAt(kept: seq<Ranked>, ranked: seq<Ranked>, at: seq<nat>) {
    && |at| == |kept|
    && (forall j :: 0 <= j < |at| ==> at[j] < |ranked| && kept[j] == ranked[at[j]] && FirstWithSignature(ranked, at[j]))
    && (forall i, j :: 0 <= i < j < |at| ==> at[i] < at[j])
  }

  lemma {:induction false} KeptAppend(kept: seq<Ranked>, ranked: seq<Ranked>, at: seq<nat>, p: nat)
    requires KeptAt(kept, ranked, at) && p < |ranked| && FirstWithSignature(ranked, p)
    requires forall j :: 0 <= j < |at| ==> at[j] < p
    ensures KeptAt(kept + [ranked[p]], ranked, at + [p])
  {
    hide FirstWithSignature;
  }

  lemma {:induction false} KeptPrefix(kept: seq<Ranked>, ranked: seq<Ranked>, at: seq<nat>, m: nat)
    requires KeptAt(kept, ranked, at) && m <= |kept|
    ensures KeptAt(kept[..m], ranked, at[..m])
  {
    hide FirstWithSignature;
  }

  /** All positions before `n` of an item that is the first with its signature, and no others. */
  predicate ListsFirsts(at: seq<nat>, ranked: seq<Ranked>, n: nat)
    requires n <= |ranked|
  {
    && (forall j :: 0 <= j < |at| ==> at[j] < n)
    && (forall p :: 0 <= p < n && FirstWithSignature(ranked, p) ==> p in at)
  }

  lemma {:induction false} FirstPositions(ranked: seq<Ranked>, n: nat) returns (at: seq<nat>)
    requires n <= |ranked|
    ensures KeptAt(FirstOfEach(ranked, n), ranked, at) && ListsFirsts(at, ranked, n)
  {
    hide FirstWithSignature, KeptAt, SeenBefore;
    if n == 0 {
      at := [];
      NothingKept(ranked);
      assert FirstOfEach(ranked, n) == [];
    } else {
      var before := FirstPositions(ranked, n - 1);
      SeenIsEarlier(ranked, n - 1);
      if FirstWithSignature(ranked, n - 1) {
        at := before + [n - 1];
        assert FirstOfEach(ranked, n) == FirstOfEach(ranked, n - 1) + [ranked[n - 1]];
        KeptAppend(FirstOfEach(ranked, n - 1), ranked, before, n - 1);
        assert n - 1 in at;
        assert forall p :: p in before ==> p in at;
      } else {
        at := before;
        assert FirstOfEach(ranked, n) == FirstOfEach(ranked, n - 1) + [] == FirstOfEach(ranked, n - 1);
      }
    }
  }

  lemma {:induction false} NothingKept(ranked: seq<Ranked>)
    ensures KeptAt([], ranked, [])
  {
  }

  lemma {:induction false} CutOff(kept: seq<Ranked>, ranked: seq<Ranked>, at: seq<nat>, m: nat, p: nat)
    requires KeptAt(kept, ranked, at) && m <= |at| && p in at && p !in at[..m]
    ensures m < |at| && forall j :: 0 <= j < m ==> at[j] < p
  {
    hide FirstWithSignature;
    var k :| 0 <= k < |at| && at[k] == p;
    assert forall i :: 0 <= i < m ==> at[i] in at[..m];
  }

  /** The item at `p` scores at least the floor, where that is asked for. */
  predicate PassesFloor(ranked: seq<Ranked>, reranked: bool, floor: real, p: nat)
    requires p < |ranked|
  {
    reranked ==> ranked[p].maxScore >= floor
  }

  /** A first of its signature that passes the floor is left out only behind a full evidence. */
  predicate OnlyCutOff(e: seq<Ranked>, ranked: seq<Ranked>, reranked: bool, floor: real, at: seq<nat>, size: int) {
    forall p :: 0 <= p < |ranked| && FirstWithSignature(ranked, p) && PassesFloor(ranked, reranked, floor, p)
                && p !in at ==>
      |e| == size && forall j :: 0 <= j < |at| ==> at[j] < p
  }

  lemma {:induction false} PassesBefore(ranked: seq<Ranked>, reranked: bool, floor: real) returns (n: nat)
    requires Descending(ranked)
    ensures n <= |ranked|
    ensures forall p :: 0 <= p < |ranked| ==> (PassesFloor(ranked, reranked, floor, p) <==> p < n)
    ensures Eligible(ranked, reranked, floor) == ranked[..n]
  {
    if reranked {
      n := FloorPosition(ranked, floor, 0);
      StopAtFloor(ranked, floor, n);
    } else {
      n := |ranked|;
      assert ranked[..n] == ranked;
    }
  }

  /** The evidence, exactly: in the order of the ranking, the items at or above the floor that are
      the first with their signature, up to the size asked for. */
  lemma {:induction false} EvidenceExactly(ranked: seq<Ranked>, reranked: bool, floor: real, topN: int)
    returns (at: seq<nat>)
    requires Descending(ranked)
    ensures var e := Evidence(ranked, reranked, floor, topN);
            && KeptAt(e, ranked, at) && |e| <= (if topN >= 1 then topN else 1)
            && (forall j :: 0 <= j < |at| ==> PassesFloor(ranked, reranked, floor, at[j]))
            && OnlyCutOff(e, ranked, reranked, floor, at, if topN >= 1 then topN else 1)
  {
    hide FirstWithSignature, FirstOfEach, Eligible, KeptAt, Descending, PassesFloor;
    var n := PassesBefore(ranked, reranked, floor);
    FirstOfPrefix(ranked, n, n);
    var all := FirstPositions(ranked, n);
    var e, kept := Evidence(ranked, reranked, floor, topN), FirstOfEach(ranked, n);
    KeptLength(kept, ranked, all);
    assert e == kept[..|e|];
    KeptPrefix(kept, ranked, all, |e|);
    at := all[..|e|];
    forall p | 0 <= p < |ranked| && FirstWithSignature(ranked, p) && PassesFloor(ranked, reranked, floor, p)
               && p !in at
      ensures |e| == Max(1, topN) && forall j :: 0 <= j < |at| ==> at[j] < p
    {
      CutOff(kept, ranked, all, |e|, p);
    }
  }

  lemma {:induction false} KeptLength(kept: seq<Ranked>, ranked: seq<Ranked>, at: seq<nat>)
    requires KeptAt(kept, ranked, at)
    ensures |at| == |kept| && forall j :: 0 <= j < |at| ==> at[j] < |ranked|
  {
  }

  /** The whole pipeline: whatever the searches return, the evidence is a descending list of
      distinct chunks with distinct signatures, each a hit of one of the searches. */
  lemma {:induction false} PipelineSound(
    lists: seq<Option<seq<Hit>>>, limit: int, arabic: seq<real>, original: seq<real>,
    enabled: bool, floor: real, topN: int)
    ensures var ranked := Rerank(Merged(lists, limit), arabic, original, enabled);
            var e := Evidence(ranked, enabled, floor, topN);
            && Descending(ranked) && Descending(e) && DistinctSignatures(e) && DistinctBy(e, RankedId)
            && forall j :: 0 <= j < |e| ==> e[j].hit in AllHits(lists, |lists|)
  {
    var merged := Merged(lists, limit);
    MergeKeepsBest(lists, limit);
    RerankFacts(merged, arabic, original, enabled);
    var ranked := Rerank(merged, arabic, original, enabled);
    EvidenceSound(ranked, enabled, floor, topN);
    var e := Evidence(ranked, enabled, floor, topN);
    forall j | 0 <= j < |e|
      ensures e[j].hit in AllHits(lists, |lists|)
    {
      var p :| 0 <= p < |ranked| && ranked[p] == e[j];
      var m :| 0 <= m < |merged| && merged[m] == ranked[p].hit;
    }
  }
}
