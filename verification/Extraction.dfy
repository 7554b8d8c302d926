/** Page records, summaries and one run of the checkpointed extraction runner. */
module Extraction {
  import opened Sequences

  const MIN_TEXT_CHARS_PER_PAGE: nat := 20
  const TEXT_CAPACITY_PER_PAGE: nat := 4000
  const MIN_TEXT_PAGES_FOR_LAYER: nat := 1

  // ---------------------------------------------------------------- pages and rows

  function SumLengths(texts: seq<string>): nat {
    if texts == [] then 0 else |texts[0]| + SumLengths(texts[1..])
  }

  /** One page: either with its blocks, or with the character count stored in its row. */
  datatype PageInfo = PageInfo(
    number: nat,
    width: real,
    height: real,
    rotation: int,
    blocks: seq<string>,
    storedCharCount: Option<nat>)
  {
    function CharCount(): nat {
      if storedCharCount.Some? then storedCharCount.value else SumLengths(blocks)
    }

    predicate HasText() { CharCount() >= MIN_TEXT_CHARS_PER_PAGE }

    function Confidence(): real {
      if !HasText() then 0.0
      else
        var share := CharCount() as real / TEXT_CAPACITY_PER_PAGE as real;
        if share < 1.0 then share else 1.0
    }
  }

  /** The summary of a book. */
  datatype PdfExtraction = PdfExtraction(pageCount: nat, pages: seq<PageInfo>)
  {
    function TotalChars(): nat { SumChars(pages) }

    predicate HasTextLayer() { CountText(pages) >= MIN_TEXT_PAGES_FOR_LAYER }

    function Confidence(): real {
      if pages == [] then 0.0 else SumConfidence(pages) / |pages| as real
    }
  }

  function SumChars(pages: seq<PageInfo>): nat {
    if pages == [] then 0 else pages[0].CharCount() + SumChars(pages[1..])
  }

  function CountText(pages: seq<PageInfo>): nat {
    if pages == [] then 0 else (if pages[0].HasText() then 1 else 0) + CountText(pages[1..])
  }

  function SumConfidence(pages: seq<PageInfo>): real {
    if pages == [] then 0.0 else pages[0].Confidence() + SumConfidence(pages[1..])
  }

  /** What parsing one page yields; a failing page still has its geometry. */
  datatype Outcome =
    | Parsed(width: real, height: real, rotation: int, blocks: seq<string>)
    | Failed(width: real, height: real, rotation: int, error: string)

  /** A document, as the outcome of parsing each page: parsing is deterministic. */
  type Document = seq<Outcome>


  datatype Row = Row(
    pageNumber: nat,
    width: real,
    height: real,
    rotation: int,
    hasText: bool,
    charCount: nat,
    blockCount: nat,
    confidence: real,
    errorMessage: Option<string>)

  /** The page returned after persisting the outcome of page `n`. */
  function InfoOf(n: nat, outcome: Outcome): PageInfo {
    match outcome
    case Parsed(w, h, r, blocks) => PageInfo(n, w, h, r, blocks, None)
    case Failed(w, h, r, _) => PageInfo(n, w, h, r, [], None)
  }

  /** The row written for the outcome of page `n`. */
  function RowOf(n: nat, outcome: Outcome): Row {
    match outcome
    case Parsed(w, h, r, blocks) =>
      var info := InfoOf(n, outcome);
      Row(n, w, h, r, info.HasText(), info.CharCount(), |blocks|, info.Confidence(), None)
    case Failed(w, h, r, error) => Row(n, w, h, r, false, 0, 0, 0.0, Some(error))
  }

  /** A page rebuilt from its row. */
  function RowToPageInfo(row: Row): PageInfo {
    PageInfo(row.pageNumber, row.width, row.height, row.rotation, [], Some(row.charCount))
  }

  /** Two pages a summary cannot tell apart. */
  predicate SamePage(a: PageInfo, b: PageInfo) {
    && a.number == b.number && a.width == b.width && a.height == b.height && a.rotation == b.rotation
    && a.CharCount() == b.CharCount() && a.HasText() == b.HasText() && a.Confidence() == b.Confidence()
  }

  /** A row keeps everything a summary needs, for failed pages too, and its stored flags are
      those of the rebuilt page. */
  lemma {:induction false} RowRoundTrip(n: nat, outcome: Outcome)
    ensures SamePage(RowToPageInfo(RowOf(n, outcome)), InfoOf(n, outcome))
    ensures RowOf(n, outcome).hasText == RowToPageInfo(RowOf(n, outcome)).HasText()
    ensures RowOf(n, outcome).confidence == RowToPageInfo(RowOf(n, outcome)).Confidence()
  {
    if outcome.Failed? { assert SumLengths([]) == 0; }
  }

  lemma {:induction false} SumIsFlat(texts: seq<string>)
    ensures SumLengths(texts) == |Flatten(texts)|
  {
    if texts != [] { SumIsFlat(texts[1..]); }
  }

  /** What is stored and returned for a parsed page: its number and geometry, as many characters as
      its blocks have in all, whether these reach the minimum, and the share of a full page they
      fill; the returned page has the blocks themselves. */
  lemma {:induction false} ParsedPageRecord(n: nat, w: real, h: real, r: int, blocks: seq<string>)
    ensures var info := InfoOf(n, Parsed(w, h, r, blocks));
            && info.number == n && info.width == w && info.height == h && info.rotation == r && info.blocks == blocks
            && info.CharCount() == |Flatten(blocks)|
    ensures var row, chars := RowOf(n, Parsed(w, h, r, blocks)), |Flatten(blocks)|;
            && row.pageNumber == n && row.width == w && row.height == h && row.rotation == r
            && row.charCount == chars && row.blockCount == |blocks| && row.errorMessage == None
            && (row.hasText <==> chars >= 20)
            && 0.0 <= row.confidence <= 1.0
            && (chars >= 4000 ==> row.confidence == 1.0)
            && (20 <= chars < 4000 ==> row.confidence * 4000.0 == chars as real)
            && (chars < 20 ==> row.confidence == 0.0)
  {
    SumIsFlat(blocks);
  }

  /** A page that could not be parsed keeps its geometry and its error, and has no text. */
  lemma {:induction false} FailedPageRecord(n: nat, w: real, h: real, r: int, error: string)
    ensures var info := InfoOf(n, Failed(w, h, r, error));
            && info.number == n && info.width == w && info.height == h && info.rotation == r && info.blocks == []
            && info.CharCount() == 0 && !info.HasText() && info.Confidence() == 0.0
    ensures var row := RowOf(n, Failed(w, h, r, error));
            && row.pageNumber == n && row.width == w && row.height == h && row.rotation == r
            && row.charCount == 0 && row.blockCount == 0 && !row.hasText && row.confidence == 0.0
            && row.errorMessage == Some(error)
  {
    assert SumLengths([]) == 0;
  }

  /** The text of the pages that are parsed, page after page. */
  function DocumentText(document: Document, n: nat): string
    requires n <= |document|
  {
    if n == 0 then ""
    else
      DocumentText(document, n - 1)
      + (match document[n - 1] case Parsed(_, _, _, blocks) => Flatten(blocks) case Failed(_, _, _, _) => "")
  }

  lemma {:induction false} SameSummary(a: seq<PageInfo>, b: seq<PageInfo>)
    requires |a| == |b| && forall i :: 0 <= i < |a| ==> SamePage(a[i], b[i])
    ensures SumChars(a) == SumChars(b) && CountText(a) == CountText(b)
    ensures SumConfidence(a) == SumConfidence(b)
  {
    if a != [] { SameSummary(a[1..], b[1..]); }
  }

  // ---------------------------------------------------------------- work partition

  /** Page indices from `i` on, `size` at a time. */
  function SlicesFrom(i: nat, size: nat, count: nat): seq<seq<nat>>
    requires size > 0
    decreases if i < count then count - i else 0
  {
    if i >= count then []
    else
      var end := Min(i + size, count);
      [seq(end - i, k requires 0 <= k => i + k)] + SlicesFrom(i + size, size, count)
  }

  /** Pages 0..count-1 cut into runs of one length, the last possibly shorter, as many as there are
      workers or fewer. */
  function PartitionPages(count: nat, workers: int): seq<seq<nat>> {
    var w := Max(1, workers);
    SlicesFrom(0, Max(1, (count + w - 1) / w), count)
  }

  lemma {:induction false} SlicesFlatten(i: nat, size: nat, count: nat)
    requires size > 0 && i <= count
    ensures Flatten(SlicesFrom(i, size, count)) == seq(count - i, k requires 0 <= k => i + k)
    decreases count - i
  {
    if i < count {
      var end := Min(i + size, count);
      var first := seq(end - i, k requires 0 <= k => i + k);
      if i + size <= count {
        SlicesFlatten(i + size, size, count);
      } else {
        assert SlicesFrom(i + size, size, count) == [];
      }
      var rest := SlicesFrom(i + size, size, count);
      assert ([first] + rest)[1..] == rest;
    }
  }

  lemma {:induction false} SlicesShape(i: nat, size: nat, count: nat)
    requires size > 0
    ensures forall j :: 0 <= j < |SlicesFrom(i, size, count)| ==> SlicesFrom(i, size, count)[j] != []
    decreases if i < count then count - i else 0
  {
    if i < count { SlicesShape(i + size, size, count); }
  }

  lemma {:induction false} SlicesCount(i: nat, size: nat, count: nat)
    requires size > 0 && i <= count
    ensures |SlicesFrom(i, size, count)| * size < count - i + size
    decreases count - i
  {
    if i < count {
      var n := |SlicesFrom(i + size, size, count)|;
      if i + size <= count {
        SlicesCount(i + size, size, count);
      } else {
        assert n == 0;
      }
      assert (n + 1) * size == n * size + size;
    }
  }

  lemma {:induction false} CeilCovers(count: nat, w: nat)
    requires w > 0
    ensures count <= (count + w - 1) / w * w
  {
  }

  lemma {:induction false} SlicesPerWorker(count: nat, w: nat, n: nat)
    requires w > 0 && n * Max(1, (count + w - 1) / w) < count + Max(1, (count + w - 1) / w)
    ensures n <= w
  {
    var size := Max(1, (count + w - 1) / w);
    if n >= w + 1 { MulGrows(w + 1, n, size); }
    CeilCovers(count, w);
    MulGrows((count + w - 1) / w, size, w);
  }

  lemma {:induction false} SlicesEven(i: nat, size: nat, count: nat, j: nat)
    requires size > 0 && j < |SlicesFrom(i, size, count)|
    ensures |SlicesFrom(i, size, count)[j]| <= size
    ensures j < |SlicesFrom(i, size, count)| - 1 ==> |SlicesFrom(i, size, count)[j]| == size
    decreases j
  {
    if j > 0 {
      SlicesEven(i + size, size, count, j - 1);
    } else if i + size >= count {
      assert SlicesFrom(i + size, size, count) == [];
    }
  }

  /** The load is even: all slices but the last have the same length, the least whole number of
      pages per worker that covers them all, and the last is no longer. */
  lemma {:induction false} PartitionEven(count: nat, workers: int, j: nat)
    requires j < |PartitionPages(count, workers)|
    ensures var w: nat := if workers >= 1 then workers else 1;
            var slices, size := PartitionPages(count, workers), (count + w - 1) / w;
            |slices[j]| <= size && (j < |slices| - 1 ==> |slices[j]| == size)
  {
    var w := Max(1, workers);
    var size := (count + w - 1) / w;
    if count > 0 { CeilPositive(count, w); }
    SlicesEven(0, Max(1, size), count, j);
  }

  lemma {:induction false} CeilPositive(count: nat, w: nat)
    requires count > 0 && w > 0
    ensures (count + w - 1) / w >= 1
  {
    CeilCovers(count, w);
    if (count + w - 1) / w < 1 { MulGrows((count + w - 1) / w, 0, w); }
  }

  /** The slices cover all page indices once, in order; none is empty, and there are no
      more of them than workers. */
  lemma {:induction false} PartitionCovers(count: nat, workers: int)
    ensures Flatten(PartitionPages(count, workers)) == seq(count, k requires 0 <= k => k)
    ensures forall j :: 0 <= j < |PartitionPages(count, workers)| ==> PartitionPages(count, workers)[j] != []
    ensures |PartitionPages(count, workers)| <= Max(1, workers)
  {
    hide SlicesFrom, Flatten;
    var w := Max(1, workers);
    var size := Max(1, (count + w - 1) / w);
    SlicesFlatten(0, size, count);
    SlicesShape(0, size, count);
    SlicesCount(0, size, count);
    SlicesPerWorker(count, w, |SlicesFrom(0, size, count)|);
    assert seq(count - 0, k requires 0 <= k => 0 + k) == seq(count, k requires 0 <= k => k);
  }

  // ---------------------------------------------------------------- work slices

  /** The page numbers in n..total without a row, ascending. */
  function MissingFrom(present: set<nat>, n: nat, total: nat): seq<nat>
    decreases total + 1 - n
  {
    if n > total then []
    else if n in present then MissingFrom(present, n + 1, total)
    else [n] + MissingFrom(present, n + 1, total)
  }

  lemma {:induction false} MissingFacts(present: set<nat>, n: nat, total: nat)
    ensures var m := MissingFrom(present, n, total);
            && (forall i, j :: 0 <= i < j < |m| ==> m[i] < m[j])
            && (forall x: nat :: x in m <==> n <= x <= total && x !in present)
            && (forall i :: 0 <= i < |m| ==> n <= m[i] <= total && m[i] !in present)
    decreases total + 1 - n
  {
    if n <= total { MissingFacts(present, n + 1, total); }
  }

  predicate IndicesWithin(parts: seq<seq<nat>>, n: nat) {
    forall j, i :: 0 <= j < |parts| && 0 <= i < |parts[j]| ==> parts[j][i] < n
  }

  function Pick(missing: seq<nat>, indices: seq<nat>): seq<nat>
    requires forall i :: 0 <= i < |indices| ==> indices[i] < |missing|
  {
    seq(|indices|, k requires 0 <= k < |indices| => missing[indices[k]])
  }

  function PickAll(missing: seq<nat>, parts: seq<seq<nat>>): seq<seq<nat>>
    requires IndicesWithin(parts, |missing|)
  {
    if parts == [] then [] else [Pick(missing, parts[0])] + PickAll(missing, parts[1..])
  }

  lemma {:induction false} PickAllFlatten(missing: seq<nat>, parts: seq<seq<nat>>)
    requires IndicesWithin(parts, |missing|)
    ensures forall i :: 0 <= i < |Flatten<nat>(parts)| ==> Flatten<nat>(parts)[i] < |missing|
    ensures Flatten<nat>(PickAll(missing, parts)) == Pick(missing, Flatten<nat>(parts))
    ensures |PickAll(missing, parts)| == |parts|
  {
    if parts != [] {
      PickAllFlatten(missing, parts[1..]);
      assert PickAll(missing, parts)[1..] == PickAll(missing, parts[1..]);
    }
  }

  lemma {:induction false} PartitionWithin(count: nat, workers: int)
    ensures IndicesWithin(PartitionPages(count, workers), count)
  {
    var parts := PartitionPages(count, workers);
    PartitionCovers(count, workers);
    forall j, i | 0 <= j < |parts| && 0 <= i < |parts[j]|
      ensures parts[j][i] < count
    {
      FlattenMember(parts, j, i);
    }
  }

  /** The slices of missing page numbers handed to the worker pool. */
  function WorkSlices(present: set<nat>, total: nat, workers: int): seq<seq<nat>> {
    var missing := MissingFrom(present, 1, total);
    PartitionWithin(|missing|, workers);
    PickAll(missing, PartitionPages(|missing|, workers))
  }

  /** The slices list the missing pages in ascending order, one slice per worker at most. */
  lemma {:induction false} WorkSlicesCover(present: set<nat>, total: nat, workers: int)
    ensures Flatten(WorkSlices(present, total, workers)) == MissingFrom(present, 1, total)
    ensures |WorkSlices(present, total, workers)| <= Max(1, workers)
  {
    var missing := MissingFrom(present, 1, total);
    var parts := PartitionPages(|missing|, workers);
    PartitionWithin(|missing|, workers);
    PartitionCovers(|missing|, workers);
    PickAllFlatten(missing, parts);
    assert Pick(missing, Flatten(parts)) == missing;
  }

  /** How many pages the first `i` slices hold. */
  function PagesBefore(slices: seq<seq<nat>>, i: nat): nat
    requires i <= |slices|
  {
    if i == 0 then 0 else PagesBefore(slices, i - 1) + |slices[i - 1]|
  }

  lemma {:induction false} FlattenPrefix(slices: seq<seq<nat>>, i: nat)
    requires i <= |slices|
    ensures |Flatten<nat>(slices[..i])| == PagesBefore(slices, i)
  {
    if i > 0 {
      FlattenPrefix(slices, i - 1);
      SliceAppend(slices, 0, i - 1);
      FlattenConcat(slices[..i - 1], [slices[i - 1]]);
      FlattenSingle(slices[i - 1]);
    }
  }

  /** Where slice `i` lies in the list of all missing pages. */
  lemma {:induction false} SlicePosition(slices: seq<seq<nat>>, i: nat)
    requires i < |slices|
    ensures PagesBefore(slices, i) + |slices[i]| <= |Flatten<nat>(slices)|
    ensures forall j :: 0 <= j < |slices[i]| ==> slices[i][j] == Flatten<nat>(slices)[PagesBefore(slices, i) + j]
  {
    FlattenPrefix(slices, i);
    assert slices == slices[..i] + slices[i..];
    FlattenConcat(slices[..i], slices[i..]);
  }

  // ---------------------------------------------------------------- what a run produces

  /** The page rows of a job, in the order they were added. */
  type Table = seq<Row>

  function Numbers(rows: Table): set<nat> {
    set row | row in rows :: row.pageNumber
  }

  function RowFor(rows: Table, n: nat): Option<Row> {
    if rows == [] then None
    else if rows[0].pageNumber == n then Some(rows[0])
    else RowFor(rows[1..], n)
  }

  /** A table a run may start from: each row describes a page of the document as a run
      writes it, and no page has two rows. */
  ghost predicate Consistent(rows: Table, document: Document) {
    && (forall i :: 0 <= i < |rows| ==>
          1 <= rows[i].pageNumber <= |document|
          && rows[i] == RowOf(rows[i].pageNumber, document[rows[i].pageNumber - 1]))
    && (forall i, j :: 0 <= i < j < |rows| ==> rows[i].pageNumber != rows[j].pageNumber)
  }

  lemma {:induction false} RowForFacts(rows: Table, n: nat)
    ensures RowFor(rows, n).Some? <==> n in Numbers(rows)
    ensures RowFor(rows, n).Some? ==> RowFor(rows, n).value in rows && RowFor(rows, n).value.pageNumber == n
  {
    if rows != [] {
      RowForFacts(rows[1..], n);
      assert rows == [rows[0]] + rows[1..];
      assert rows[0] in rows;
    }
  }

  /** The outcome of parsing page `n`, counted from 1. */
  function OutcomeAt(document: Document, n: nat): Outcome
    requires 1 <= n <= |document|
  {
    document[n - 1]
  }

  predicate PagesOf(numbers: seq<nat>, document: Document) {
    forall i :: 0 <= i < |numbers| ==> 1 <= numbers[i] <= |document|
  }

  /** The rows written for the first `k` of `numbers`. */
  function RowsOf(numbers: seq<nat>, k: nat, document: Document): Table
    requires k <= |numbers| && PagesOf(numbers, document)
  {
    if k == 0 then []
    else RowsOf(numbers, k - 1, document) + [RowOf(numbers[k - 1], OutcomeAt(document, numbers[k - 1]))]
  }

  /** The pages persisted for the first `k` of `numbers`. */
  function InfosOf(numbers: seq<nat>, k: nat, document: Document): seq<PageInfo>
    requires k <= |numbers| && PagesOf(numbers, document)
  {
    if k == 0 then []
    else InfosOf(numbers, k - 1, document) + [InfoOf(numbers[k - 1], OutcomeAt(document, numbers[k - 1]))]
  }

  lemma {:induction false} RowsLength(numbers: seq<nat>, k: nat, document: Document)
    requires k <= |numbers| && PagesOf(numbers, document)
    ensures |RowsOf(numbers, k, document)| == k
  {
    if k > 0 { RowsLength(numbers, k - 1, document); }
  }

  lemma {:induction false} RowAt(numbers: seq<nat>, k: nat, document: Document, i: nat)
    requires i < k <= |numbers| && PagesOf(numbers, document)
    ensures |RowsOf(numbers, k, document)| == k
    ensures RowsOf(numbers, k, document)[i] == RowOf(numbers[i], OutcomeAt(document, numbers[i]))
  {
    if i < k - 1 {
      RowAt(numbers, k - 1, document, i);
    } else if k > 1 {
      RowAt(numbers, k - 1, document, 0);
    }
  }

  lemma {:induction false} InfoAt(numbers: seq<nat>, k: nat, document: Document, i: nat)
    requires i < k <= |numbers| && PagesOf(numbers, document)
    ensures |InfosOf(numbers, k, document)| == k
    ensures InfosOf(numbers, k, document)[i] == InfoOf(numbers[i], OutcomeAt(document, numbers[i]))
  {
    if i < k - 1 {
      InfoAt(numbers, k - 1, document, i);
    } else if k > 1 {
      InfoAt(numbers, k - 1, document, 0);
    }
  }

  /** The page numbers without a row, ascending. */
  function MissingPages(base: Table, document: Document): (missing: seq<nat>)
    ensures PagesOf(missing, document)
  {
    MissingFacts(Numbers(base), 1, |document|);
    MissingFrom(Numbers(base), 1, |document|)
  }

  /** Page `n` of the returned summary: stored pages are rebuilt from their rows. */
  function ResultPage(base: Table, n: nat, document: Document): PageInfo
    requires 1 <= n <= |document|
  {
    match RowFor(base, n)
    case Some(row) => RowToPageInfo(row)
    case None => InfoOf(n, OutcomeAt(document, n))
  }

  /** The pages 1..n of the returned summary. */
  function ResultPages(base: Table, n: nat, document: Document): seq<PageInfo>
    requires n <= |document|
  {
    if n == 0 then [] else ResultPages(base, n - 1, document) + [ResultPage(base, n, document)]
  }

  /** The summary a run returns when it finds the rows `base`. */
  function Summary(base: Table, document: Document): PdfExtraction {
    PdfExtraction(|document|, ResultPages(base, |document|, document))
  }

  lemma {:induction false} ResultPageAt(base: Table, n: nat, document: Document, i: nat)
    requires i < n <= |document|
    ensures |ResultPages(base, n, document)| == n
    ensures ResultPages(base, n, document)[i] == ResultPage(base, i + 1, document)
  {
    if i < n - 1 {
      ResultPageAt(base, n - 1, document, i);
    } else if n > 1 {
      ResultPageAt(base, n - 1, document, 0);
    }
  }

  lemma {:induction false} ResumedPage(base: Table, document: Document, n: nat)
    requires Consistent(base, document) && 1 <= n <= |document|
    ensures ResultPage(base, n, document).number == n
    ensures SamePage(ResultPage(base, n, document), ResultPage([], n, document))
  {
    RowForFacts(base, n);
    RowRoundTrip(n, OutcomeAt(document, n));
  }

  /** Resume refinement: from any consistent table, the summary equals page by page the one
      of an uninterrupted run, and so do all its aggregates. */
  lemma {:induction false} ResumedSummary(base: Table, document: Document)
    requires Consistent(base, document)
    ensures var resumed, full := Summary(base, document), Summary([], document);
            && |resumed.pages| == |full.pages| == |document|
            && (forall i :: 0 <= i < |document| ==>
                  resumed.pages[i].number == i + 1 && SamePage(resumed.pages[i], full.pages[i]))
            && resumed.TotalChars() == full.TotalChars()
            && resumed.HasTextLayer() == full.HasTextLayer()
            && resumed.Confidence() == full.Confidence()
  {
    var resumed, full := Summary(base, document).pages, Summary([], document).pages;
    if |document| > 0 {
      ResultPageAt(base, |document|, document, 0);
      ResultPageAt([], |document|, document, 0);
    }
    forall i | 0 <= i < |document|
      ensures resumed[i].number == i + 1 && SamePage(resumed[i], full[i])
    {
      ResultPageAt(base, |document|, document, i);
      ResultPageAt([], |document|, document, i);
      ResumedPage(base, document, i + 1);
    }
    SameSummary(resumed, full);
  }

  lemma {:induction false} NumbersAppend(rows: Table, row: Row)
    ensures Numbers(rows + [row]) == Numbers(rows) + {row.pageNumber}
  {
    assert row in rows + [row];
    forall n | n in Numbers(rows)
      ensures n in Numbers(rows + [row])
    {
      var r :| r in rows && r.pageNumber == n;
      assert r in rows + [row];
    }
  }

  /** Adding the row of a page that has none keeps the table consistent. */
  lemma {:induction false} ConsistentAppend(rows: Table, document: Document, n: nat)
    requires Consistent(rows, document) && 1 <= n <= |document| && n !in Numbers(rows)
    ensures var row := RowOf(n, OutcomeAt(document, n));
            row.pageNumber == n && Consistent(rows + [row], document)
  {
    forall i | 0 <= i < |rows|
      ensures rows[i].pageNumber != n
    {
      assert rows[i] in rows;
    }
  }

  function Elements(numbers: seq<nat>, k: nat): set<nat>
    requires k <= |numbers|
  {
    if k == 0 then {} else Elements(numbers, k - 1) + {numbers[k - 1]}
  }

  lemma {:induction false} ElementsMembers(numbers: seq<nat>, k: nat, n: nat)
    requires k <= |numbers|
    ensures n in Elements(numbers, k) <==> exists i :: 0 <= i < k && numbers[i] == n
  {
    if k > 0 { ElementsMembers(numbers, k - 1, n); }
  }

  lemma {:induction false} NextIsNew(base: Table, document: Document, k: nat)
    requires k < |MissingPages(base, document)|
    ensures MissingPages(base, document)[k] !in Numbers(base) + Elements(MissingPages(base, document), k)
  {
    MissingFacts(Numbers(base), 1, |document|);
    ElementsMembers(MissingPages(base, document), k, MissingPages(base, document)[k]);
  }

  /** Adding the rows of the first `k` missing pages keeps the table consistent and covers
      exactly the pages that had a row or are among those `k`. */
  lemma {:induction false} ExtendedTable(base: Table, document: Document, k: nat)
    requires Consistent(base, document) && k <= |MissingPages(base, document)|
    ensures var missing := MissingPages(base, document);
            var rows := base + RowsOf(missing, k, document);
            Consistent(rows, document) && Numbers(rows) == Numbers(base) + Elements(missing, k)
  {
    hide RowOf, MissingFrom, Numbers, Consistent;
    var missing := MissingPages(base, document);
    if k == 0 {
      assert base + RowsOf(missing, 0, document) == base;
    } else {
      ExtendedTable(base, document, k - 1);
      NextIsNew(base, document, k - 1);
      var before := base + RowsOf(missing, k - 1, document);
      var n := missing[k - 1];
      var row := RowOf(n, OutcomeAt(document, n));
      assert base + RowsOf(missing, k, document) == before + [row];
      ConsistentAppend(before, document, n);
      NumbersAppend(before, row);
    }
  }

  /** All missing pages added: exactly the pages 1..|document| have a row. */
  lemma {:induction false} CompletedTable(base: Table, document: Document)
    requires Consistent(base, document)
    ensures var missing := MissingPages(base, document);
            var rows := base + RowsOf(missing, |missing|, document);
            Consistent(rows, document) && forall n: nat :: n in Numbers(rows) <==> 1 <= n <= |document|
  {
    var missing := MissingPages(base, document);
    MissingFacts(Numbers(base), 1, |document|);
    ExtendedTable(base, document, |missing|);
    forall n: nat
      ensures n in Numbers(base) + Elements(missing, |missing|) <==> 1 <= n <= |document|
    {
      ElementsMembers(missing, |missing|, n);
      if n in Numbers(base) {
        var r :| r in base && r.pageNumber == n;
      }
    }
  }

  // ---------------------------------------------------------------- the returned pages

  function PageNumbered(infos: seq<PageInfo>, n: nat): Option<PageInfo> {
    if infos == [] then None
    else if Last(infos).number == n then Some(Last(infos))
    else PageNumbered(infos[..|infos| - 1], n)
  }

  /** Pages 1..n in order: new pages first, stored rows for the numbers they leave free. */
  function MergedPages(base: Table, infos: seq<PageInfo>, n: nat): seq<PageInfo> {
    if n == 0 then []
    else
      var stored := RowFor(base, n);
      var page := PageNumbered(infos, n);
      MergedPages(base, infos, n - 1)
      + (if page.Some? then [page.value] else if stored.Some? then [RowToPageInfo(stored.value)] else [])
  }

  /** What a run returns for the rows it found and the pages it persisted. */
  function ReturnedPages(base: Table, infos: seq<PageInfo>, total: nat): seq<PageInfo> {
    if base == [] then infos else MergedPages(base, infos, total)
  }

  lemma {:induction false} PageNumberedAppend(infos: seq<PageInfo>, page: PageInfo, n: nat)
    ensures PageNumbered(infos + [page], n) == if page.number == n then Some(page) else PageNumbered(infos, n)
  {
    assert (infos + [page])[..|infos|] == infos;
  }

  lemma {:induction false} InfoNumber(n: nat, outcome: Outcome)
    ensures InfoOf(n, outcome).number == n
  {
  }

  lemma {:induction false} PageNumberedAmong(numbers: seq<nat>, k: nat, document: Document, n: nat)
    requires k <= |numbers| && PagesOf(numbers, document) && 1 <= n <= |document|
    ensures PageNumbered(InfosOf(numbers, k, document), n)
            == if n in Elements(numbers, k) then Some(InfoOf(n, OutcomeAt(document, n))) else None
  {
    hide InfoOf, OutcomeAt;
    if k > 0 {
      hide PageNumbered;
      var m := numbers[k - 1];
      PageNumberedAmong(numbers, k - 1, document, n);
      PageNumberedAppend(InfosOf(numbers, k - 1, document), InfoOf(m, OutcomeAt(document, m)), n);
      InfoNumber(m, OutcomeAt(document, m));
    }
  }

  lemma {:induction false} MergedUpTo(base: Table, document: Document, n: nat)
    requires Consistent(base, document) && n <= |document|
    ensures var missing := MissingPages(base, document);
            MergedPages(base, InfosOf(missing, |missing|, document), n) == ResultPages(base, n, document)
  {
    if n > 0 {
      var missing := MissingPages(base, document);
      MergedUpTo(base, document, n - 1);
      PageNumberedAmong(missing, |missing|, document, n);
      ElementsMembers(missing, |missing|, n);
      MissingFacts(Numbers(base), 1, |document|);
      RowForFacts(base, n);
    }
  }

  /** Once all missing pages are persisted, the merge by number is the summary of the book. */
  lemma {:induction false} ReturnedIsSummary(base: Table, document: Document)
    requires Consistent(base, document)
    ensures var missing := MissingPages(base, document);
            ReturnedPages(base, InfosOf(missing, |missing|, document), |document|) == Summary(base, document).pages
  {
    MergedUpTo(base, document, |document|);
    if base == [] { NothingStored(document); }
  }

  lemma {:induction false} MissingOfNothing(n: nat, total: nat)
    requires 1 <= n <= total + 1
    ensures |MissingFrom({}, n, total)| == total + 1 - n
    ensures forall i :: 0 <= i < total + 1 - n ==> MissingFrom({}, n, total)[i] == n + i
    decreases total + 1 - n
  {
    if n <= total { MissingOfNothing(n + 1, total); }
  }

  lemma {:induction false} NothingStoredUpTo(document: Document, k: nat)
    requires k <= |document|
    ensures |MissingPages([], document)| == |document|
    ensures InfosOf(MissingPages([], document), k, document) == ResultPages([], k, document)
  {
    assert Numbers([]) == {};
    MissingOfNothing(1, |document|);
    if k > 0 { NothingStoredUpTo(document, k - 1); }
  }

  lemma {:induction false} NothingStored(document: Document)
    ensures |MissingPages([], document)| == |document|
    ensures InfosOf(MissingPages([], document), |document|, document) == Summary([], document).pages
  {
    NothingStoredUpTo(document, |document|);
  }

  // ---------------------------------------------------------------- totals

  lemma {:induction false} SumCharsAppend(pages: seq<PageInfo>, page: PageInfo)
    ensures SumChars(pages + [page]) == SumChars(pages) + page.CharCount()
    ensures CountText(pages + [page]) == CountText(pages) + (if page.HasText() then 1 else 0)
    ensures SumConfidence(pages + [page]) == SumConfidence(pages) + page.Confidence()
  {
    if pages == [] {
      assert [page][1..] == [];
      assert pages + [page] == [page];
    } else {
      assert (pages + [page])[1..] == pages[1..] + [page];
      SumCharsAppend(pages[1..], page);
    }
  }

  lemma {:induction false} TextCounted(pages: seq<PageInfo>)
    ensures CountText(pages) >= 1 <==> exists p :: 0 <= p < |pages| && pages[p].HasText()
    ensures 0.0 <= SumConfidence(pages) <= |pages| as real
  {
    if pages != [] {
      TextCounted(pages[1..]);
      assert forall p :: 0 < p < |pages| ==> pages[p] == pages[1..][p - 1];
      if exists p :: 0 <= p < |pages[1..]| && pages[1..][p].HasText() {
        var p :| 0 <= p < |pages[1..]| && pages[1..][p].HasText();
        assert pages[p + 1].HasText();
      }
    }
  }

  lemma {:induction false} CharsOfDocument(document: Document, n: nat)
    requires n <= |document|
    ensures SumChars(ResultPages([], n, document)) == |DocumentText(document, n)|
  {
    if n > 0 {
      CharsOfDocument(document, n - 1);
      SumCharsAppend(ResultPages([], n - 1, document), ResultPage([], n, document));
      match document[n - 1]
      case Parsed(w, h, r, blocks) => ParsedPageRecord(n, w, h, r, blocks);
      case Failed(w, h, r, error) => FailedPageRecord(n, w, h, r, error);
    }
  }

  /** The summary of a whole book: its characters are those of the parsed pages, it has a text layer
      exactly when some page has text, and its confidence is the mean of the pages'. */
  lemma {:induction false} SummaryTotals(document: Document)
    ensures var summary := Summary([], document);
            && summary.TotalChars() == |DocumentText(document, |document|)|
            && (summary.HasTextLayer() <==> exists p :: 0 <= p < |summary.pages| && summary.pages[p].HasText())
            && 0.0 <= summary.Confidence() <= 1.0
            && summary.Confidence() * |summary.pages| as real == SumConfidence(summary.pages)
  {
    hide InfoOf, ResultPages, SumChars, CountText, SumConfidence, DocumentText;
    var summary := Summary([], document);
    CharsOfDocument(document, |document|);
    TextCounted(summary.pages);
    if summary.pages != [] { MeanOf(SumConfidence(summary.pages), |summary.pages| as real); }
  }

  lemma {:induction false} MeanOf(sum: real, count: real)
    requires count > 0.0 && 0.0 <= sum <= count
    ensures 0.0 <= sum / count <= 1.0 && sum / count * count == sum
  {
  }
}
