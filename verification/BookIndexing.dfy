/** Chunking and indexing together: what indexing whole books leaves in the store. */
module BookIndexing {
  import opened Sequences
  import opened Ids
  import U = ChunkUnits
  import E = ChunkEngine
  import T = ChunkTheorems
  import opened Indexing

  /** The rows of a book's chunks as the indexer reads them. */
  function Rows(chunks: seq<E.Chunk>): (rows: seq<Chunk>)
    ensures |rows| == |chunks|
  {
    seq(|chunks|, i requires 0 <= i < |chunks| => Chunk(chunks[i].id, chunks[i].rawText))
  }

  /** A book and how it is chunked. */
  datatype Book = Book(pages: seq<U.Page>, printed: map<int, Option<int>>, maxTokens: int, overlap: real)

  function BookRows(book: Book): seq<Chunk> {
    Rows(E.ExtractChunks(book.pages, book.printed, book.maxTokens, book.overlap))
  }

  /** The store after a book is indexed for an upload. */
  function IndexBook(points: Points, book: Book, upload: UploadId): Points {
    Reindexed(points, upload, PointsOf(BookRows(book), |BookRows(book)|, upload))
  }

  lemma {:induction false} RowsShareId(a: Book, b: Book, i: nat, j: nat)
    requires i < |BookRows(a)| && j < |BookRows(b)|
    ensures BookRows(a)[i].chunkId == BookRows(b)[j].chunkId
            <==> i == j && BookRows(a)[i].rawText == BookRows(b)[j].rawText
  {
    hide E.UnitChunks, U.DocumentUnits, E.TokenLimit, E.OverlapBudget;
    T.ChunkIdsIdentify(
      U.DocumentUnits(a.pages, a.printed), E.TokenLimit(a.maxTokens), E.OverlapBudget(a.maxTokens, a.overlap),
      U.DocumentUnits(b.pages, b.printed), E.TokenLimit(b.maxTokens), E.OverlapBudget(b.maxTokens, b.overlap), i, j);
  }

  lemma {:induction false} BookRowsDistinct(book: Book)
    ensures DistinctChunks(BookRows(book))
  {
    hide BookRows;
    forall i, j | 0 <= i < j < |BookRows(book)|
      ensures BookRows(book)[i].chunkId != BookRows(book)[j].chunkId
    {
      RowsShareId(book, book, i, j);
    }
  }

  /** From any store, indexing any book leaves for its upload exactly one point per chunk, with
      the vector of the chunk's text. */
  lemma {:induction false} OnePointPerBookChunk(points: Points, book: Book, upload: UploadId)
    ensures var rows, after := BookRows(book), IndexBook(points, book, upload);
            && (forall i :: 0 <= i < |rows| ==>
                  PointId(rows[i].chunkId) in after
                  && after[PointId(rows[i].chunkId)]
                     == Point(PointId(rows[i].chunkId), upload, Vector(rows[i].rawText)))
            && (forall id :: id in after && after[id].upload == upload <==> IsChunk(rows, |rows|, id))
  {
    hide BookRows, Reindexed;
    BookRowsDistinct(book);
    OnePointPerChunk(points, BookRows(book), upload);
  }

  /** Two books have a chunk with the same text at position `i`. */
  predicate ShareChunk(a: Book, b: Book, i: nat) {
    i < |BookRows(a)| && i < |BookRows(b)| && BookRows(a)[i].rawText == BookRows(b)[i].rawText
  }

  lemma {:induction false} SharedId(a: Book, b: Book, i: nat)
    requires i < |BookRows(a)|
    ensures IsChunk(BookRows(b), |BookRows(b)|, PointId(BookRows(a)[i].chunkId)) <==> ShareChunk(a, b, i)
  {
    hide BookRows, IsChunk;
    var id := PointId(BookRows(a)[i].chunkId);
    if ShareChunk(a, b, i) {
      RowsShareId(a, b, i, i);
      IsChunkAt(BookRows(b), |BookRows(b)|, i);
    }
    if IsChunk(BookRows(b), |BookRows(b)|, id) {
      var j := ChunkPosition(BookRows(b), |BookRows(b)|, id);
      RowsShareId(a, b, i, j);
    }
  }

  /** When another upload's book is indexed after a book, a point of the first one survives
      exactly when the second has no chunk with the same text at the same position. */
  lemma {:induction false} BooksShareStore(
    points: Points, first: Book, a: UploadId, second: Book, b: UploadId, i: nat)
    requires a != b && i < |BookRows(first)|
    ensures var row, after := BookRows(first)[i], IndexBook(IndexBook(points, first, a), second, b);
            PointId(row.chunkId) in after
            && after[PointId(row.chunkId)] == Point(PointId(row.chunkId), a, Vector(row.rawText))
            <==> !ShareChunk(first, second, i)
  {
    hide BookRows, IsChunk, Upserted, ShareChunk;
    var id, rows := PointId(BookRows(first)[i].chunkId), BookRows(second);
    OnePointPerBookChunk(points, first, a);
    SharedId(first, second, i);
    UpsertedAt(WithoutUpload(IndexBook(points, first, a), b), rows, b, |rows|, id);
  }
}
