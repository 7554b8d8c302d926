/** Re-indexing an upload: delete its points, then upsert the new ones in batches. */
module Indexing {
  import opened Sequences
  import opened Ids

  /** The point id of a chunk: deterministic, and different for different chunk ids. */
  datatype PointId = PointId(chunkId: ChunkId)

  datatype UploadId = UploadId(text: string)

  /** The embedding of a text: embedding is deterministic. */
  datatype Vector = Vector(text: string)

  datatype Chunk = Chunk(chunkId: ChunkId, rawText: string)

  datatype Point = Point(id: PointId, upload: UploadId, vector: Vector)

  type Points = map<PointId, Point>

  datatype Outcome = Indexed(count: nat) | NoChunks | NoMetadata

  function PointOf(chunk: Chunk, upload: UploadId): Point {
    Point(PointId(chunk.chunkId), upload, Vector(chunk.rawText))
  }

  /** The points of the first `n` chunks. */
  function PointsOf(chunks: seq<Chunk>, n: nat, upload: UploadId): seq<Point>
    requires n <= |chunks|
  {
    if n == 0 then [] else PointsOf(chunks, n - 1, upload) + [PointOf(chunks[n - 1], upload)]
  }

  lemma {:induction false} PointAt(chunks: seq<Chunk>, n: nat, upload: UploadId, i: nat)
    requires i < n <= |chunks|
    ensures |PointsOf(chunks, n, upload)| == n
    ensures PointsOf(chunks, n, upload)[i] == PointOf(chunks[i], upload)
  {
    if i < n - 1 {
      PointAt(chunks, n - 1, upload, i);
    } else if n > 1 {
      PointAt(chunks, n - 1, upload, 0);
    }
  }

  /** The store without the points of one upload. */
  function WithoutUpload(points: Points, upload: UploadId): Points {
    map id | id in points && points[id].upload != upload :: points[id]
  }

  /** The store after the first `n` of `batch` are upserted. */
  function Upserted(points: Points, batch: seq<Point>, n: nat): Points
    requires n <= |batch|
  {
    if n == 0 then points else Upserted(points, batch, n - 1)[batch[n - 1].id := batch[n - 1]]
  }

  /** The store after a completed run. */
  function Reindexed(points: Points, upload: UploadId, added: seq<Point>): Points {
    Upserted(WithoutUpload(points, upload), added, |added|)
  }

  class QdrantStore {
    var points: Points

    constructor (initial: Points)
      ensures points == initial
    {
      points := initial;
    }

    method DeleteByUpload(upload: UploadId)
      modifies this
      ensures points == WithoutUpload(old(points), upload)
    {
      points := WithoutUpload(points, upload);
    }

    method UpsertPoints(batch: seq<Point>)
      modifies this
      ensures points == Upserted(old(points), batch, |batch|)
    {
      for i := 0 to |batch|
        invariant points == Upserted(old(points), batch, i)
      {
        points := points[batch[i].id := batch[i]];
      }
    }
  }

  class Job {
    var progressPercent: int
    /** The value at each commit. */
    var committed: seq<int>

    constructor ()
      ensures progressPercent == 0 && committed == []
    {
      progressPercent, committed := 0, [];
    }

    method Commit(percent: int)
      modifies this
      ensures progressPercent == percent && committed == old(committed) + [percent]
    {
      progressPercent, committed := percent, committed + [percent];
    }
  }

  /** The wrapped embedder: one vector per text, in order. */
  method EmbedBatch(texts: seq<string>) returns (vectors: seq<Vector>)
    ensures |vectors| == |texts| && forall i :: 0 <= i < |texts| ==> vectors[i] == Vector(texts[i])
  {
    vectors := seq(|texts|, i requires 0 <= i < |texts| => Vector(texts[i]));
  }

  /** Embeds in batches; the points map one to one onto the chunks whatever the batch size. */
  method BuildPoints(chunks: seq<Chunk>, upload: UploadId, embeddingBatch: nat) returns (points: seq<Point>)
    requires embeddingBatch > 0
    ensures points == PointsOf(chunks, |chunks|, upload)
  {
    points := [];
    var start := 0;
    while start < |chunks|
      invariant 0 <= start <= |chunks| && points == PointsOf(chunks, start, upload)
    {
      var end := Min(start + embeddingBatch, |chunks|);
      var batch := chunks[start..end];
      var vectors := EmbedBatch(seq(|batch|, i requires 0 <= i < |batch| => batch[i].rawText));
      for i := 0 to |batch|
        invariant points == PointsOf(chunks, start + i, upload)
      {
        points := points + [Point(PointId(batch[i].chunkId), upload, vectors[i])];
      }
      start := end;
    }
  }

  // ---------------------------------------------------------------- progress

  function Percent(done: nat, total: nat): int
    requires total > 0
  {
    Min(99, done * 100 / total)
  }

  /** What is committed while points from `done` on are upserted. */
  function BatchProgress(done: nat, total: nat, batch: nat): seq<int>
    requires batch > 0
    decreases if done < total then total - done else 0
  {
    if done >= total then [100]
    else [Percent(Min(done + batch, total), total)] + BatchProgress(Min(done + batch, total), total, batch)
  }

  lemma {:induction false} PercentGrows(a: nat, b: nat, total: nat)
    requires total > 0 && a <= b
    ensures 0 <= Percent(a, total) <= Percent(b, total) <= 99
  {
    DivGrows(a * 100, b * 100, total);
  }

  lemma {:induction false} DivGrows(a: nat, b: nat, d: nat)
    requires d > 0 && a <= b
    ensures 0 <= a / d <= b / d
  {
    var q, r := a / d, b / d;
    assert a == d * q + a % d && b == d * r + b % d;
    if r < q { MulGrows(r + 1, q, d); }
  }

  /** Progress after batch `i`: the percentage of points stored by then, rounded down, never more
      than 99; there is one such value for every batch, and 100 at the end. */
  lemma {:induction false} ProgressAt(done: nat, total: nat, batch: nat, i: nat)
    requires batch > 0 && total > 0 && done + i * batch < total
    ensures i < |BatchProgress(done, total, batch)| - 1
    ensures var stored, percent := Min(done + i * batch + batch, total), BatchProgress(done, total, batch)[i];
            percent == 99 || (percent < 99 && percent * total <= stored * 100 < (percent + 1) * total)
    ensures done + i * batch + batch >= total ==> |BatchProgress(done, total, batch)| == i + 2
    decreases i
  {
    if i > 0 {
      assert (i - 1) * batch + batch == i * batch && (i - 1) * batch >= 0;
      ProgressAt(done + batch, total, batch, i - 1);
    } else {
      PercentBounds(Min(done + batch, total), total);
      if done + batch >= total { assert BatchProgress(total, total, batch) == [100]; }
    }
  }

  lemma {:induction false} PercentBounds(done: nat, total: nat)
    requires total > 0
    ensures var percent := Percent(done, total);
            percent == 99 || (percent < 99 && percent * total <= done * 100 < (percent + 1) * total)
  {
    var q := done * 100 / total;
    assert done * 100 == total * q + done * 100 % total;
  }

  /** Progress never falls, stays within 99 until the end and ends at 100. */
  lemma {:induction false} ProgressSound(done: nat, total: nat, batch: nat)
    requires batch > 0 && done <= total && total > 0
    ensures var p := BatchProgress(done, total, batch);
            && p != [] && Last(p) == 100
            && (forall i :: 0 <= i < |p| - 1 ==> Percent(done, total) <= p[i] <= 99)
            && (forall i, j :: 0 <= i < j < |p| ==> p[i] <= p[j])
    decreases total - done
  {
    if done < total {
      var next := Min(done + batch, total);
      ProgressSound(next, total, batch);
      PercentGrows(done, next, total);
    }
  }

  /** One indexing run. */
  method Run(
    store: QdrantStore, job: Job, chunks: seq<Chunk>, hasMetadata: bool, upload: UploadId,
    batchSize: int, embeddingBatchSize: int)
    returns (outcome: Outcome)
    modifies store, job
    ensures chunks == [] ==> outcome == NoChunks
    ensures chunks != [] && !hasMetadata ==> outcome == NoMetadata
    ensures chunks == [] || !hasMetadata ==> store.points == old(store.points) && job.committed == old(job.committed)
    ensures chunks != [] && hasMetadata ==>
              && outcome == Indexed(|chunks|)
              && store.points == Reindexed(old(store.points), upload, PointsOf(chunks, |chunks|, upload))
              && job.committed == old(job.committed) + [0] + BatchProgress(0, |chunks|, Max(1, batchSize))
              && job.progressPercent == 100
  {
    if chunks == [] { return NoChunks; }
    if !hasMetadata { return NoMetadata; }
    job.Commit(0);
    var added := BuildPoints(chunks, upload, Max(1, embeddingBatchSize));
    PointAt(chunks, |chunks|, upload, 0);
    store.DeleteByUpload(upload);
    UpsertAll(store, job, added, Max(1, batchSize));
    job.Commit(100);
    outcome := Indexed(|added|);
  }

  method UpsertAll(store: QdrantStore, job: Job, added: seq<Point>, batchSize: nat)
    requires batchSize > 0 && added != []
    modifies store, job
    ensures store.points == Upserted(old(store.points), added, |added|)
    ensures job.committed + [100] == old(job.committed) + BatchProgress(0, |added|, batchSize)
  {
    var start, total := 0, |added|;
    while start < total
      invariant 0 <= start <= total
      invariant store.points == Upserted(old(store.points), added, start)
      invariant job.committed + BatchProgress(start, total, batchSize)
             == old(job.committed) + BatchProgress(0, total, batchSize)
    {
      var end := Min(start + batchSize, total);
      var batch := added[start..end];
      UpsertBatch(old(store.points), added, start, end);
      store.UpsertPoints(batch);
      ghost var before := job.committed;
      job.Commit(Percent(end, total));
      assert before + BatchProgress(start, total, batchSize)
          == before + [Percent(end, total)] + BatchProgress(end, total, batchSize);
      start := end;
    }
  }

  lemma {:induction false} UpsertBatch(points: Points, added: seq<Point>, start: nat, end: nat)
    requires start <= end <= |added|
    ensures Upserted(Upserted(points, added, start), added[start..end], end - start) == Upserted(points, added, end)
    decreases end
  {
    if start < end {
      UpsertBatch(points, added, start, end - 1);
      UpsertPrefix(Upserted(points, added, start), added[start..end - 1], added[start..end], end - 1 - start);
    }
  }

  lemma {:induction false} UpsertPrefix(points: Points, a: seq<Point>, b: seq<Point>, n: nat)
    requires n <= |a| && n <= |b| && forall i :: 0 <= i < n ==> a[i] == b[i]
    ensures Upserted(points, a, n) == Upserted(points, b, n)
  {
    if n > 0 { UpsertPrefix(points, a, b, n - 1); }
  }

  // ---------------------------------------------------------------- what a run leaves behind

  /** Chunk ids are unique within a chunking job. */
  predicate DistinctChunks(chunks: seq<Chunk>) {
    forall i, j :: 0 <= i < j < |chunks| ==> chunks[i].chunkId != chunks[j].chunkId
  }

  predicate IsChunk(chunks: seq<Chunk>, n: nat, id: PointId)
    requires n <= |chunks|
  {
    n > 0 && (PointId(chunks[n - 1].chunkId) == id || IsChunk(chunks, n - 1, id))
  }

  lemma {:induction false} IsChunkAt(chunks: seq<Chunk>, n: nat, i: nat)
    requires i < n <= |chunks|
    ensures IsChunk(chunks, n, PointId(chunks[i].chunkId))
  {
    if i < n - 1 { IsChunkAt(chunks, n - 1, i); }
  }

  lemma {:induction false} ChunkPosition(chunks: seq<Chunk>, n: nat, id: PointId) returns (i: nat)
    requires n <= |chunks| && IsChunk(chunks, n, id)
    ensures i < n && PointId(chunks[i].chunkId) == id
  {
    if PointId(chunks[n - 1].chunkId) == id { i := n - 1; } else { i := ChunkPosition(chunks, n - 1, id); }
  }

  /** Upserting the first `n` points changes exactly the ids of their chunks. */
  lemma {:induction false} UpsertedAt(points: Points, chunks: seq<Chunk>, upload: UploadId, n: nat, id: PointId)
    requires n <= |chunks|
    ensures |PointsOf(chunks, |chunks|, upload)| == |chunks|
    ensures var after := Upserted(points, PointsOf(chunks, |chunks|, upload), n);
            if IsChunk(chunks, n, id) then id in after && after[id].upload == upload && after[id].id == id
            else (id in after <==> id in points) && (id in points ==> after[id] == points[id])
  {
    if |chunks| > 0 { PointAt(chunks, |chunks|, upload, 0); }
    if n > 0 {
      UpsertedAt(points, chunks, upload, n - 1, id);
      PointAt(chunks, |chunks|, upload, n - 1);
    }
  }

  lemma {:induction false} UpsertedPoint(points: Points, chunks: seq<Chunk>, upload: UploadId, n: nat, i: nat)
    requires i < n <= |chunks| && DistinctChunks(chunks)
    ensures |PointsOf(chunks, |chunks|, upload)| == |chunks|
    ensures var after := Upserted(points, PointsOf(chunks, |chunks|, upload), n);
            PointId(chunks[i].chunkId) in after && after[PointId(chunks[i].chunkId)] == PointOf(chunks[i], upload)
  {
    PointAt(chunks, |chunks|, upload, n - 1);
    if i < n - 1 { UpsertedPoint(points, chunks, upload, n - 1, i); }
  }

  /** From any store, a completed run leaves for its upload exactly one point per chunk: every
      chunk's point is there, and every point of the upload is a chunk's. */
  lemma {:induction false} OnePointPerChunk(points: Points, chunks: seq<Chunk>, upload: UploadId)
    requires DistinctChunks(chunks)
    ensures var after := Reindexed(points, upload, PointsOf(chunks, |chunks|, upload));
            && (forall i :: 0 <= i < |chunks| ==>
                  PointId(chunks[i].chunkId) in after
                  && after[PointId(chunks[i].chunkId)]
                     == Point(PointId(chunks[i].chunkId), upload, Vector(chunks[i].rawText)))
            && (forall id :: id in after && after[id].upload == upload <==> IsChunk(chunks, |chunks|, id))
  {
    var cleared := WithoutUpload(points, upload);
    forall i | 0 <= i < |chunks|
      ensures var after := Reindexed(points, upload, PointsOf(chunks, |chunks|, upload));
              PointId(chunks[i].chunkId) in after
              && after[PointId(chunks[i].chunkId)] == PointOf(chunks[i], upload)
    {
      UpsertedPoint(cleared, chunks, upload, |chunks|, i);
    }
    if chunks != [] { PointAt(chunks, |chunks|, upload, 0); }
    forall id { UpsertedAt(cleared, chunks, upload, |chunks|, id); }
  }

  /** The upload's ids are not taken by points of other uploads. */
  ghost predicate Disjoint(points: Points, chunks: seq<Chunk>, upload: UploadId) {
    forall id :: id in points && points[id].upload != upload ==> !IsChunk(chunks, |chunks|, id)
  }

  ghost predicate OthersUnchanged(points: Points, after: Points, upload: UploadId) {
    forall id :: id in points && points[id].upload != upload ==> id in after && after[id] == points[id]
  }

  /** Points of other uploads are unchanged exactly when none of them has a chunk's id. */
  lemma {:induction false} OthersKept(points: Points, chunks: seq<Chunk>, upload: UploadId)
    ensures OthersUnchanged(points, Reindexed(points, upload, PointsOf(chunks, |chunks|, upload)), upload)
            <==> Disjoint(points, chunks, upload)
  {
    var cleared := WithoutUpload(points, upload);
    if chunks != [] { PointAt(chunks, |chunks|, upload, 0); }
    forall id | id in points && points[id].upload != upload
      ensures var after := Reindexed(points, upload, PointsOf(chunks, |chunks|, upload));
              (id in after && after[id] == points[id]) <==> !IsChunk(chunks, |chunks|, id)
    {
      UpsertedAt(cleared, chunks, upload, |chunks|, id);
    }
  }

  // ---------------------------------------------------------------- crashes

  /** The store a crash leaves: the delete and the first `n` upserts are done. */
  function Crashed(points: Points, chunks: seq<Chunk>, upload: UploadId, n: nat): Points
    requires n <= |chunks|
  {
    if n > 0 then
      PointAt(chunks, |chunks|, upload, 0);
      Upserted(WithoutUpload(points, upload), PointsOf(chunks, |chunks|, upload), n)
    else WithoutUpload(points, upload)
  }

  lemma {:induction false} IsChunkMore(chunks: seq<Chunk>, n: nat, id: PointId)
    requires n <= |chunks|
    ensures IsChunk(chunks, n, id) ==> IsChunk(chunks, |chunks|, id)
  {
    if IsChunk(chunks, n, id) {
      var i := ChunkPosition(chunks, n, id);
      IsChunkAt(chunks, |chunks|, i);
    }
  }

  /** What the upserts put at the id of a chunk does not depend on the store before. */
  lemma {:induction false} SameUpserts(
    points: Points, other: Points, chunks: seq<Chunk>, upload: UploadId, n: nat, id: PointId)
    requires n <= |chunks| && IsChunk(chunks, n, id)
    ensures |PointsOf(chunks, |chunks|, upload)| == |chunks|
    ensures var added := PointsOf(chunks, |chunks|, upload);
            var a, b := Upserted(points, added, n), Upserted(other, added, n);
            id in a && id in b && a[id] == b[id]
  {
    PointAt(chunks, |chunks|, upload, n - 1);
    UpsertedAt(points, chunks, upload, n, id);
    UpsertedAt(other, chunks, upload, n, id);
    if PointId(chunks[n - 1].chunkId) != id { SameUpserts(points, other, chunks, upload, n - 1, id); }
  }

  /** The crashed run took `id` from another upload, and the next run does not take it. */
  predicate LostTo(points: Points, stale: seq<Chunk>, chunks: seq<Chunk>, upload: UploadId, n: nat, id: PointId)
    requires n <= |stale|
  {
    && id in points && points[id].upload != upload
    && IsChunk(stale, n, id) && !IsChunk(chunks, |chunks|, id)
  }

  predicate SameAt(a: Points, b: Points, id: PointId) {
    (id in a <==> id in b) && (id in a ==> a[id] == b[id])
  }

  lemma {:induction false} SameEverywhere(a: Points, b: Points)
    requires forall id :: SameAt(a, b, id)
    ensures a == b
  {
    forall id
      ensures id in a <==> id in b
      ensures id in a ==> a[id] == b[id]
    {
      assert SameAt(a, b, id);
    }
  }

  lemma {:induction false} TraceAt(
    points: Points, stale: seq<Chunk>, chunks: seq<Chunk>, upload: UploadId, n: nat, id: PointId)
    requires n <= |stale|
    ensures var added := PointsOf(chunks, |chunks|, upload);
            SameAt(
              Reindexed(Crashed(points, stale, upload, n), upload, added), Reindexed(points, upload, added), id)
            <==> !LostTo(points, stale, chunks, upload, n, id)
  {
    var crashed := Crashed(points, stale, upload, n);
    if chunks != [] { PointAt(chunks, |chunks|, upload, 0); }
    UpsertedAt(WithoutUpload(points, upload), stale, upload, n, id);
    UpsertedAt(WithoutUpload(points, upload), chunks, upload, |chunks|, id);
    UpsertedAt(WithoutUpload(crashed, upload), chunks, upload, |chunks|, id);
    if IsChunk(chunks, |chunks|, id) {
      SameUpserts(WithoutUpload(crashed, upload), WithoutUpload(points, upload), chunks, upload, |chunks|, id);
    }
  }

  /** A crash anywhere, even while indexing an older chunk list, leaves no trace, that is, the
      next completed run gives the store it would have given without the crashed one, exactly
      when the crashed run took from no other upload an id that the next run does not take. */
  lemma {:induction false} CrashLeavesNoTrace(
    points: Points, stale: seq<Chunk>, chunks: seq<Chunk>, upload: UploadId, n: nat)
    requires n <= |stale|
    ensures var added := PointsOf(chunks, |chunks|, upload);
            Reindexed(Crashed(points, stale, upload, n), upload, added) == Reindexed(points, upload, added)
            <==> forall id :: id in points ==> !LostTo(points, stale, chunks, upload, n, id)
  {
    hide IsChunk, Upserted, WithoutUpload, Reindexed, Crashed;
    var added := PointsOf(chunks, |chunks|, upload);
    var after, clean := Reindexed(Crashed(points, stale, upload, n), upload, added), Reindexed(points, upload, added);
    forall id
      ensures SameAt(after, clean, id) <==> !LostTo(points, stale, chunks, upload, n, id)
    {
      TraceAt(points, stale, chunks, upload, n, id);
    }
    if forall id :: id in points ==> !LostTo(points, stale, chunks, upload, n, id) {
      SameEverywhere(after, clean);
    } else {
      var id :| LostTo(points, stale, chunks, upload, n, id);
      assert !SameAt(after, clean, id);
    }
  }

  /** Rerunning a crashed or completed run of the same chunks always ends in the same store,
      whoever owned the ids before. */
  lemma {:induction false} RerunIsIdempotent(points: Points, chunks: seq<Chunk>, upload: UploadId, n: nat)
    requires n <= |chunks|
    ensures Reindexed(Crashed(points, chunks, upload, n), upload, PointsOf(chunks, |chunks|, upload))
            == Reindexed(points, upload, PointsOf(chunks, |chunks|, upload))
  {
    forall id | id in points
      ensures !LostTo(points, chunks, chunks, upload, n, id)
    {
      IsChunkMore(chunks, n, id);
    }
    CrashLeavesNoTrace(points, chunks, chunks, upload, n);
  }
}
