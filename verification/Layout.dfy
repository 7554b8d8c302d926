/** Page layout: clustering blocks into columns and numbering them in reading order. */
module Layout {
  import opened Sequences
  import opened Sorting

  const HEADER_BAND: real := 0.07
  const FOOTER_BAND: real := 0.93
  const COLUMN_GAP: real := 0.18

  datatype Block = Block(index: nat, x0: real, y0: real, x1: real, y1: real)

  datatype Page = Page(width: real, height: real, blocks: seq<Block>)

  function Center(b: Block): real { (b.x0 + b.x1) / 2.0 }

  predicate NotRightOf(a: Block, b: Block) { Center(a) <= Center(b) }

  // ---------------------------------------------------------------- clustering

  /** A gap before block `i` that starts a new column. */
  predicate Breaks(ordered: seq<Block>, gap: real, i: nat)
    requires 0 < i < |ordered|
  {
    Center(ordered[i]) - Center(ordered[i - 1]) > gap
  }

  /** The columns of the first `n` blocks. */
  function Columns(ordered: seq<Block>, gap: real, n: nat): (columns: seq<seq<Block>>)
    requires n <= |ordered|
    ensures n > 0 ==> columns != []
  {
    if n == 0 then []
    else
      var before := Columns(ordered, gap, n - 1);
      if n == 1 || Breaks(ordered, gap, n - 1) then before + [[ordered[n - 1]]]
      else before[..|before| - 1] + [Last(before) + [ordered[n - 1]]]
  }

  function ClusterColumns(blocks: seq<Block>, width: real): seq<seq<Block>> {
    var ordered := Sort(blocks, NotRightOf);
    Columns(ordered, width * COLUMN_GAP, |ordered|)
  }

  lemma {:induction false} GrowLast(done: seq<seq<Block>>, current: seq<Block>, b: Block)
    ensures (done + [current])[..|done|] + [Last(done + [current]) + [b]] == done + [current + [b]]
  {
  }

  method ClusterColumnsLoop(blocks: seq<Block>, width: real) returns (columns: seq<seq<Block>>)
    ensures columns == ClusterColumns(blocks, width)
  {
    if blocks == [] { return []; }
    var ordered := Sort(blocks, NotRightOf);
    var gap := width * COLUMN_GAP;
    var current: seq<Block> := [];
    var previous: Option<real> := None;
    columns := [];
    for i := 0 to |ordered|
      invariant i == 0 ==> columns == [] && current == [] && previous == None
      invariant i > 0 ==> previous == Some(Center(ordered[i - 1])) && current != []
      invariant i > 0 ==> columns + [current] == Columns(ordered, gap, i)
    {
      var center := Center(ordered[i]);
      GrowLast(columns, current, ordered[i]);
      if previous.Some? && center - previous.value > gap {
        columns := columns + [current];
        current := [];
      }
      assert [] + [ordered[i]] == [ordered[i]];
      current := current + [ordered[i]];
      previous := Some(center);
    }
    if current != [] { columns := columns + [current]; }
  }

  /** Which column position `i` falls in. */
  function ColumnIndex(ordered: seq<Block>, gap: real, i: nat): nat
    requires i < |ordered|
  {
    if i == 0 then 0 else ColumnIndex(ordered, gap, i - 1) + (if Breaks(ordered, gap, i) then 1 else 0)
  }

  lemma {:induction false} FlattenAppend(s: seq<seq<Block>>, x: seq<Block>)
    ensures Flatten(s + [x]) == Flatten(s) + x
  {
    FlattenConcat(s, [x]);
    FlattenSingle(x);
  }

  lemma {:induction false} FlattenGrow(columns: seq<seq<Block>>, b: Block)
    requires columns != []
    ensures Flatten(columns[..|columns| - 1] + [Last(columns) + [b]]) == Flatten(columns) + [b]
  {
    hide Flatten;
    var front := columns[..|columns| - 1];
    assert columns == front + [Last(columns)];
    FlattenAppend(front, Last(columns));
    FlattenAppend(front, Last(columns) + [b]);
  }

  lemma {:induction false} ColumnsFlatten(ordered: seq<Block>, gap: real, n: nat)
    requires n <= |ordered|
    ensures Flatten(Columns(ordered, gap, n)) == ordered[..n]
  {
    if n > 0 {
      hide Flatten, Breaks;
      ColumnsFlatten(ordered, gap, n - 1);
      var before, b := Columns(ordered, gap, n - 1), ordered[n - 1];
      SliceAppend(ordered, 0, n - 1);
      if n == 1 || Breaks(ordered, gap, n - 1) {
        FlattenAppend(before, [b]);
      } else {
        FlattenGrow(before, b);
      }
    }
  }

  lemma {:induction false} ColumnsCount(ordered: seq<Block>, gap: real, n: nat)
    requires n <= |ordered|
    ensures n > 0 ==> |Columns(ordered, gap, n)| == ColumnIndex(ordered, gap, n - 1) + 1
    ensures forall c :: 0 <= c < |Columns(ordered, gap, n)| ==> Columns(ordered, gap, n)[c] != []
  {
    hide Breaks;
    if n > 0 { ColumnsCount(ordered, gap, n - 1); }
  }

  /** One of the first `n` blocks is `b` and falls in column `c`. */
  predicate InColumn(ordered: seq<Block>, gap: real, n: nat, c: nat, b: Block)
    requires n <= |ordered|
  {
    n > 0 && ((ordered[n - 1] == b && ColumnIndex(ordered, gap, n - 1) == c) || InColumn(ordered, gap, n - 1, c, b))
  }

  lemma {:induction false} ColumnMembers(ordered: seq<Block>, gap: real, n: nat, c: nat, b: Block)
    requires n <= |ordered| && c < |Columns(ordered, gap, n)|
    ensures b in Columns(ordered, gap, n)[c] <==> InColumn(ordered, gap, n, c, b)
  {
    hide Breaks, Flatten;
    ColumnsCount(ordered, gap, n);
    ColumnsCount(ordered, gap, n - 1);
    if n > 1 {
      if c < |Columns(ordered, gap, n - 1)| {
        ColumnMembers(ordered, gap, n - 1, c, b);
      } else {
        NotYetInColumn(ordered, gap, n - 1, c, b);
      }
    }
  }

  lemma {:induction false} NotYetInColumn(ordered: seq<Block>, gap: real, n: nat, c: nat, b: Block)
    requires 0 < n <= |ordered| && c > ColumnIndex(ordered, gap, n - 1)
    ensures !InColumn(ordered, gap, n, c, b)
  {
    if n > 1 { NotYetInColumn(ordered, gap, n - 1, c, b); }
  }

  lemma {:induction false} PositionInColumn(ordered: seq<Block>, gap: real, n: nat, c: nat, b: Block)
    returns (i: nat)
    requires n <= |ordered| && InColumn(ordered, gap, n, c, b)
    ensures i < n && ordered[i] == b && ColumnIndex(ordered, gap, i) == c
  {
    if ordered[n - 1] == b && ColumnIndex(ordered, gap, n - 1) == c {
      i := n - 1;
    } else {
      i := PositionInColumn(ordered, gap, n - 1, c, b);
    }
  }

  lemma {:induction false} PositionCounts(ordered: seq<Block>, gap: real, n: nat, i: nat)
    requires i < n <= |ordered|
    ensures InColumn(ordered, gap, n, ColumnIndex(ordered, gap, i), ordered[i])
    ensures ColumnIndex(ordered, gap, i) < |Columns(ordered, gap, n)|
  {
    hide Breaks;
    ColumnsCount(ordered, gap, n);
    ColumnIndexGrows(ordered, gap, n - 1);
    if i < n - 1 { PositionCounts(ordered, gap, n - 1, i); }
  }

  lemma {:induction false} ColumnIndexGrows(ordered: seq<Block>, gap: real, j: nat)
    requires j < |ordered|
    ensures forall i :: 0 <= i <= j ==> ColumnIndex(ordered, gap, i) <= ColumnIndex(ordered, gap, j)
  {
    if j > 0 { ColumnIndexGrows(ordered, gap, j - 1); }
  }

  /** Blocks of different columns are further apart than the gap. */
  lemma {:induction false} DifferentColumnsApart(ordered: seq<Block>, gap: real, i: nat, j: nat)
    requires Sorted(ordered, NotRightOf) && i < j < |ordered|
    requires ColumnIndex(ordered, gap, i) < ColumnIndex(ordered, gap, j)
    ensures Center(ordered[j]) - Center(ordered[i]) > gap
  {
    assert NotRightOf(ordered[j - 1], ordered[j]);
    if Breaks(ordered, gap, j) {
      if i < j - 1 { assert NotRightOf(ordered[i], ordered[j - 1]); }
    } else {
      DifferentColumnsApart(ordered, gap, i, j - 1);
    }
  }

  predicate Near(a: Block, b: Block, gap: real) {
    -gap <= Center(a) - Center(b) <= gap
  }

  /** A chain of blocks, each within the gap of the next. */
  ghost predicate Chain(path: seq<Block>, blocks: seq<Block>, gap: real) {
    && path != []
    && (forall k :: 0 <= k < |path| ==> path[k] in blocks)
    && (forall k :: 0 <= k < |path| - 1 ==> Near(path[k], path[k + 1], gap))
  }

  ghost predicate Linked(a: Block, b: Block, blocks: seq<Block>, gap: real) {
    exists path :: Chain(path, blocks, gap) && path[0] == a && Last(path) == b
  }

  ghost predicate SameColumn(a: Block, b: Block, columns: seq<seq<Block>>) {
    exists c :: 0 <= c < |columns| && a in columns[c] && b in columns[c]
  }

  lemma {:induction false} ChainWithinColumn(ordered: seq<Block>, gap: real, i: nat, j: nat)
    returns (path: seq<Block>)
    requires Sorted(ordered, NotRightOf) && i < |ordered| && j < |ordered|
    requires ColumnIndex(ordered, gap, i) == ColumnIndex(ordered, gap, j)
    ensures Chain(path, ordered, gap) && path[0] == ordered[i] && Last(path) == ordered[j]
    decreases if i < j then j - i else i - j
  {
    hide Sort;
    if i == j {
      path := [ordered[i]];
    } else {
      var k: nat := if i < j then j - 1 else j + 1;
      ColumnIndexGrows(ordered, gap, j);
      ColumnIndexGrows(ordered, gap, k);
      ColumnIndexGrows(ordered, gap, if i < j then k else i);
      assert NotRightOf(ordered[if i < j then k else j], ordered[if i < j then j else k]);
      var front := ChainWithinColumn(ordered, gap, i, k);
      path := front + [ordered[j]];
    }
  }

  lemma {:induction false} ChainStaysInColumn(
    path: seq<Block>, ordered: seq<Block>, gap: real, i: nat)
    returns (j: nat)
    requires Sorted(ordered, NotRightOf) && Chain(path, ordered, gap)
    requires i < |ordered| && ordered[i] == path[0]
    ensures j < |ordered| && ordered[j] == Last(path) && ColumnIndex(ordered, gap, j) == ColumnIndex(ordered, gap, i)
  {
    if |path| == 1 {
      j := i;
    } else {
      var front := path[..|path| - 1];
      var k := ChainStaysInColumn(front, ordered, gap, i);
      assert Last(path) in ordered && Near(front[|front| - 1], path[|path| - 1], gap);
      j :| 0 <= j < |ordered| && ordered[j] == Last(path);
      ColumnIndexGrows(ordered, gap, j);
      ColumnIndexGrows(ordered, gap, k);
      if k < j && ColumnIndex(ordered, gap, k) < ColumnIndex(ordered, gap, j) {
        DifferentColumnsApart(ordered, gap, k, j);
      }
      if j < k && ColumnIndex(ordered, gap, j) < ColumnIndex(ordered, gap, k) {
        DifferentColumnsApart(ordered, gap, j, k);
      }
    }
  }

  lemma {:induction false} SortedBlocks(blocks: seq<Block>)
    ensures Sorted(Sort(blocks, NotRightOf), NotRightOf)
    ensures forall b :: b in Sort(blocks, NotRightOf) <==> b in blocks
    ensures |Sort(blocks, NotRightOf)| == |blocks|
  {
    SortFacts(blocks, NotRightOf);
    forall b { SortMembers(blocks, NotRightOf, b); }
  }

  /** Single linkage: two blocks share a column exactly when a chain of blocks with consecutive
      centre gaps of at most 18% of the page width links them. */
  lemma {:induction false} ColumnsAreChains(blocks: seq<Block>, width: real, a: Block, b: Block)
    requires a in blocks && b in blocks
    ensures SameColumn(a, b, ClusterColumns(blocks, width)) <==> Linked(a, b, blocks, width * COLUMN_GAP)
  {
    var gap := width * COLUMN_GAP;
    if SameColumn(a, b, ClusterColumns(blocks, width)) { LinkWithin(blocks, width, a, b); }
    if Linked(a, b, blocks, gap) { ColumnOfChain(blocks, width, a, b); }
  }

  lemma {:induction false} ColumnOfChain(blocks: seq<Block>, width: real, a: Block, b: Block)
    requires a in blocks && Linked(a, b, blocks, width * COLUMN_GAP)
    ensures SameColumn(a, b, ClusterColumns(blocks, width))
  {
    var ordered, gap := Sort(blocks, NotRightOf), width * COLUMN_GAP;
    SortedBlocks(blocks);
    var path :| Chain(path, blocks, gap) && path[0] == a && Last(path) == b;
    var i :| 0 <= i < |ordered| && ordered[i] == a;
    var j := ChainStaysInColumn(path, ordered, gap, i);
    PositionCounts(ordered, gap, |ordered|, i);
    PositionCounts(ordered, gap, |ordered|, j);
    ColumnMembers(ordered, gap, |ordered|, ColumnIndex(ordered, gap, i), a);
    ColumnMembers(ordered, gap, |ordered|, ColumnIndex(ordered, gap, i), b);
  }

  lemma {:induction false} LinkWithin(blocks: seq<Block>, width: real, a: Block, b: Block)
    requires SameColumn(a, b, ClusterColumns(blocks, width))
    ensures Linked(a, b, blocks, width * COLUMN_GAP)
  {
    var ordered, gap := Sort(blocks, NotRightOf), width * COLUMN_GAP;
    SortedBlocks(blocks);
    var columns := ClusterColumns(blocks, width);
    var c :| 0 <= c < |columns| && a in columns[c] && b in columns[c];
    ColumnMembers(ordered, gap, |ordered|, c, a);
    ColumnMembers(ordered, gap, |ordered|, c, b);
    var i := PositionInColumn(ordered, gap, |ordered|, c, a);
    var j := PositionInColumn(ordered, gap, |ordered|, c, b);
    var path := ChainWithinColumn(ordered, gap, i, j);
    assert Chain(path, blocks, gap);
  }

  // ---------------------------------------------------------------- reading order

  predicate InHeaderBand(b: Block, page: Page) { b.y0 <= page.height * HEADER_BAND }

  predicate InFooterBand(b: Block, page: Page) { b.y1 >= page.height * FOOTER_BAND }

  predicate InBothBands(b: Block, page: Page) { InHeaderBand(b, page) && InFooterBand(b, page) }

  datatype Zone = Header | Body | Footer

  predicate InZone(b: Block, page: Page, zone: Zone) {
    match zone
    case Header => InHeaderBand(b, page)
    case Footer => InFooterBand(b, page)
    case Body => !InHeaderBand(b, page) && !InFooterBand(b, page)
  }

  /** The blocks of a zone, in page order. A block may be in both bands. */
  function ZoneBlocks(blocks: seq<Block>, page: Page, zone: Zone): seq<Block> {
    if blocks == [] then []
    else ZoneBlocks(blocks[..|blocks| - 1], page, zone)
         + (if InZone(Last(blocks), page, zone) then [Last(blocks)] else [])
  }

  predicate PairAtMost(a: (real, real), b: (real, real)) {
    a.0 < b.0 || (a.0 == b.0 && a.1 <= b.1)
  }

  /** Top to bottom, then left to right. */
  predicate ByTop(a: Block, b: Block) { PairAtMost((a.y0, a.x0), (b.y0, b.x0)) }

  /** `round(y, 1)`: to tenths, halves to even. */
  function Tenths(y: real): int {
    var t := (y * 10.0).Floor;
    var rest := y * 10.0 - t as real;
    if rest < 0.5 || (rest == 0.5 && t % 2 == 0) then t else t + 1
  }

  predicate ByRow(a: Block, b: Block) {
    PairAtMost((Tenths(a.y0) as real, a.x0), (Tenths(b.y0) as real, b.x0))
  }

  function MinLeft(column: seq<Block>): real {
    if column == [] then 0.0
    else if |column| == 1 then column[0].x0
    else var rest := MinLeft(column[1..]); if column[0].x0 <= rest then column[0].x0 else rest
  }

  function MaxRight(column: seq<Block>): real {
    if column == [] then 0.0
    else if |column| == 1 then column[0].x1
    else var rest := MaxRight(column[1..]); if column[0].x1 >= rest then column[0].x1 else rest
  }

  function ColumnPosition(column: seq<Block>): (real, real) { (MinLeft(column), MaxRight(column)) }

  predicate LeftFirst(a: seq<Block>, b: seq<Block>) { PairAtMost(ColumnPosition(a), ColumnPosition(b)) }

  predicate RightFirst(a: seq<Block>, b: seq<Block>) { PairAtMost(ColumnPosition(b), ColumnPosition(a)) }

  function SortRows(columns: seq<seq<Block>>): seq<seq<Block>> {
    if columns == [] then [] else [Sort(columns[0], ByRow)] + SortRows(columns[1..])
  }

  function OrderedColumns(page: Page, rtl: bool): seq<seq<Block>> {
    Sort(ClusterColumns(ZoneBlocks(page.blocks, page, Body), page.width), if rtl then RightFirst else LeftFirst)
  }

  /** The blocks in the order they are numbered. */
  function ReadingList(page: Page, rtl: bool): seq<Block> {
    Sort(ZoneBlocks(page.blocks, page, Header), ByTop)
    + Flatten(SortRows(OrderedColumns(page, rtl)))
    + Sort(ZoneBlocks(page.blocks, page, Footer), ByTop)
  }

  /** The first `n` blocks numbered; a block met again takes the later number. */
  function Numbered(list: seq<Block>, n: nat): map<nat, nat>
    requires n <= |list|
  {
    if n == 0 then map[] else Numbered(list, n - 1)[list[n - 1].index := n - 1]
  }

  lemma {:induction false} NumberedPrefix(a: seq<Block>, b: seq<Block>, n: nat)
    requires n <= |a|
    ensures Numbered(a + b, n) == Numbered(a, n)
  {
    if n > 0 { NumberedPrefix(a, b, n - 1); }
  }

  /** Numbers one sorted group. */
  method NumberGroup(order: map<nat, nat>, next: nat, group: seq<Block>, ghost before: seq<Block>)
    returns (extended: map<nat, nat>, after: nat)
    requires next == |before| && order == Numbered(before, |before|)
    ensures after == |before + group| && extended == Numbered(before + group, |before + group|)
  {
    extended, after := order, next;
    NumberedPrefix(before, group, |before|);
    for i := 0 to |group|
      invariant after == |before| + i && extended == Numbered(before + group, |before| + i)
    {
      extended := extended[group[i].index := after];
      after := after + 1;
    }
  }

  /** Numbers the columns, each sorted by row. */
  method NumberColumns(order: map<nat, nat>, next: nat, columns: seq<seq<Block>>, ghost before: seq<Block>)
    returns (extended: map<nat, nat>, after: nat)
    requires next == |before| && order == Numbered(before, |before|)
    ensures var all := before + Flatten(SortRows(columns));
            after == |all| && extended == Numbered(all, |all|)
  {
    hide ByRow, Sort;
    extended, after := order, next;
    ghost var seen := before;
    assert before + Flatten(SortRows(columns[..0])) == before;
    for c := 0 to |columns|
      invariant seen == before + Flatten(SortRows(columns[..c]))
      invariant after == |seen| && extended == Numbered(seen, |seen|)
    {
      extended, after := NumberGroup(extended, after, Sort(columns[c], ByRow), seen);
      SortRowsAppend(columns[..c], columns[c]);
      SliceAppend(columns, 0, c);
      seen := seen + Sort(columns[c], ByRow);
    }
    assert columns[..|columns|] == columns;
  }

  method ReadingOrder(page: Page, rtl: bool) returns (order: map<nat, nat>)
    ensures order == Numbered(ReadingList(page, rtl), |ReadingList(page, rtl)|)
  {
    var headers := Sort(ZoneBlocks(page.blocks, page, Header), ByTop);
    var footers := Sort(ZoneBlocks(page.blocks, page, Footer), ByTop);
    var clustered := ClusterColumnsLoop(ZoneBlocks(page.blocks, page, Body), page.width);
    var columns := Sort(clustered, if rtl then RightFirst else LeftFirst);
    var next;
    order, next := NumberGroup(map[], 0, headers, []);
    assert [] + headers == headers;
    order, next := NumberColumns(order, next, columns, headers);
    order, next := NumberGroup(order, next, footers, headers + Flatten(SortRows(columns)));
  }

  lemma {:induction false} SortRowsAppend(columns: seq<seq<Block>>, column: seq<Block>)
    ensures Flatten(SortRows(columns + [column])) == Flatten(SortRows(columns)) + Sort(column, ByRow)
  {
    if columns == [] {
      assert ([column])[1..] == [];
      FlattenSingle(Sort(column, ByRow));
      assert SortRows([column]) == [Sort(column, ByRow)];
    } else {
      assert (columns + [column])[1..] == columns[1..] + [column];
      SortRowsAppend(columns[1..], column);
    }
  }

  // ---------------------------------------------------------------- positions

  lemma {:induction false} OrderIsTotal()
    ensures TotalPreorder(ByTop) && TotalPreorder(ByRow) && TotalPreorder(NotRightOf)
  {
  }

  lemma {:induction false} InsertFlatten(s: seq<seq<Block>>, x: seq<Block>, leq: (seq<Block>, seq<Block>) -> bool)
    ensures multiset(Flatten(Insert(s, x, leq))) == multiset(Flatten(s)) + multiset(x)
  {
    FlattenAppend(s, x);
    if s != [] {
      var front := s[..|s| - 1];
      assert s == front + [Last(s)];
      InsertFlatten(front, x, leq);
      FlattenAppend(front, Last(s));
      FlattenAppend(Insert(front, x, leq), Last(s));
    }
  }

  lemma {:induction false} SortFlatten(s: seq<seq<Block>>, leq: (seq<Block>, seq<Block>) -> bool)
    ensures multiset(Flatten(Sort(s, leq))) == multiset(Flatten(s))
  {
    if s != [] {
      var front := s[..|s| - 1];
      assert s == front + [Last(s)];
      SortFlatten(front, leq);
      InsertFlatten(Sort(front, leq), Last(s), leq);
      FlattenAppend(front, Last(s));
    }
  }

  lemma {:induction false} RowsFlatten(columns: seq<seq<Block>>)
    ensures multiset(Flatten(SortRows(columns))) == multiset(Flatten(columns))
  {
    if columns != [] {
      OrderIsTotal();
      SortFacts(columns[0], ByRow);
      RowsFlatten(columns[1..]);
      assert SortRows(columns)[1..] == SortRows(columns[1..]);
    }
  }

  /** No block is lost or added by clustering. */
  lemma {:induction false} ClusterConserves(blocks: seq<Block>, width: real)
    ensures multiset(Flatten(ClusterColumns(blocks, width))) == multiset(blocks)
    ensures forall c :: 0 <= c < |ClusterColumns(blocks, width)| ==> ClusterColumns(blocks, width)[c] != []
  {
    var ordered := Sort(blocks, NotRightOf);
    OrderIsTotal();
    SortFacts(blocks, NotRightOf);
    ColumnsFlatten(ordered, width * COLUMN_GAP, |ordered|);
    ColumnsCount(ordered, width * COLUMN_GAP, |ordered|);
    assert ordered[..|ordered|] == ordered;
  }

  function Zones(blocks: seq<Block>, page: Page): multiset<Block> {
    multiset(ZoneBlocks(blocks, page, Header)) + multiset(ZoneBlocks(blocks, page, Body))
    + multiset(ZoneBlocks(blocks, page, Footer))
  }

  lemma {:induction false} BodyConserved(page: Page, rtl: bool)
    ensures multiset(Flatten(SortRows(OrderedColumns(page, rtl)))) == multiset(ZoneBlocks(page.blocks, page, Body))
  {
    var body := ZoneBlocks(page.blocks, page, Body);
    ClusterConserves(body, page.width);
    SortFlatten(ClusterColumns(body, page.width), if rtl then RightFirst else LeftFirst);
    RowsFlatten(OrderedColumns(page, rtl));
  }

  lemma {:induction false} SortConserves(blocks: seq<Block>)
    ensures multiset(Sort(blocks, ByTop)) == multiset(blocks)
  {
    OrderIsTotal();
    SortFacts(blocks, ByTop);
  }

  lemma {:induction false} ListZones(page: Page, rtl: bool)
    ensures multiset(ReadingList(page, rtl)) == Zones(page.blocks, page)
    ensures |ReadingList(page, rtl)| == |Zones(page.blocks, page)|
  {
    SortConserves(ZoneBlocks(page.blocks, page, Header));
    SortConserves(ZoneBlocks(page.blocks, page, Footer));
    BodyConserved(page, rtl);
    assert |ReadingList(page, rtl)| == |multiset(ReadingList(page, rtl))|;
  }

  function CountBoth(blocks: seq<Block>, page: Page): nat {
    if blocks == [] then 0
    else CountBoth(blocks[..|blocks| - 1], page) + (if InBothBands(Last(blocks), page) then 1 else 0)
  }

  lemma {:induction false} ZonesAppend(blocks: seq<Block>, b: Block, page: Page)
    ensures Zones(blocks + [b], page)
            == Zones(blocks, page) + (if InBothBands(b, page) then multiset{b, b} else multiset{b})
    ensures CountBoth(blocks + [b], page) == CountBoth(blocks, page) + (if InBothBands(b, page) then 1 else 0)
  {
    assert (blocks + [b])[..|blocks|] == blocks;
  }

  /** Each block is in one zone, but in two when it lies in both bands. */
  lemma {:induction false} ZonesCount(blocks: seq<Block>, page: Page)
    ensures |Zones(blocks, page)| == |blocks| + CountBoth(blocks, page)
    ensures multiset(blocks) <= Zones(blocks, page)
    ensures CountBoth(blocks, page) == 0 ==> Zones(blocks, page) == multiset(blocks)
  {
    if blocks != [] {
      var front, b := blocks[..|blocks| - 1], Last(blocks);
      assert blocks == front + [b];
      ZonesCount(front, page);
      ZonesAppend(front, b, page);
      assert multiset(blocks) == multiset(front) + multiset{b};
    }
  }

  lemma {:induction false} SomeInBoth(blocks: seq<Block>, page: Page)
    ensures CountBoth(blocks, page) == 0 <==> forall i :: 0 <= i < |blocks| ==> !InBothBands(blocks[i], page)
  {
    if blocks != [] { SomeInBoth(blocks[..|blocks| - 1], page); }
  }

  lemma {:induction false} NumberedFacts(list: seq<Block>, n: nat)
    requires n <= |list|
    ensures forall i :: i in Numbered(list, n) ==> Numbered(list, n)[i] < n && list[Numbered(list, n)[i]].index == i
    ensures forall p :: 0 <= p < n ==> list[p].index in Numbered(list, n) && Numbered(list, n)[list[p].index] >= p
  {
    if n > 0 { NumberedFacts(list, n - 1); }
  }

  predicate DistinctIndices(blocks: seq<Block>) {
    forall i, j :: 0 <= i < j < |blocks| ==> blocks[i].index != blocks[j].index
  }

  lemma {:induction false} DistinctMultiplicity(blocks: seq<Block>, b: Block)
    requires DistinctIndices(blocks)
    ensures multiset(blocks)[b] <= 1
  {
    if blocks != [] {
      var front := blocks[..|blocks| - 1];
      assert blocks == front + [Last(blocks)];
      assert multiset(blocks) == multiset(front) + multiset{Last(blocks)};
      DistinctMultiplicity(front, b);
      if b == Last(blocks) { assert b !in front; }
    }
  }

  lemma {:induction false} RepeatedMultiplicity(list: seq<Block>, i: nat, j: nat)
    requires i < j < |list| && list[i] == list[j]
    ensures multiset(list)[list[i]] >= 2
  {
    assert list == list[..j] + list[j..];
    assert list[i] in list[..j] && list[j] in list[j..];
  }

  /** A listing of the page's blocks in which every index stands for one block. */
  lemma {:induction false} ListMembers(page: Page, rtl: bool, b: Block)
    ensures b in ReadingList(page, rtl) <==> b in page.blocks
  {
    ListZones(page, rtl);
    ZonesCount(page.blocks, page);
    ZoneMembers(page.blocks, page, b);
    assert b in ReadingList(page, rtl) <==> b in multiset(ReadingList(page, rtl));
    assert b in page.blocks <==> b in multiset(page.blocks);
  }

  lemma {:induction false} ZoneMembers(blocks: seq<Block>, page: Page, b: Block)
    ensures b in Zones(blocks, page) ==> b in blocks
  {
    if blocks != [] { ZoneMembers(blocks[..|blocks| - 1], page, b); }
  }

  /** Every block of the page gets a position, and distinct blocks distinct ones. */
  lemma {:induction false} PositionsDistinct(page: Page, rtl: bool)
    ensures var list := ReadingList(page, rtl);
            var order := Numbered(list, |list|);
            && (forall k :: 0 <= k < |page.blocks| ==> page.blocks[k].index in order)
            && (forall i, j :: i in order && j in order && i != j ==> order[i] != order[j])
            && (forall i :: i in order ==> exists k :: 0 <= k < |page.blocks| && page.blocks[k].index == i)
  {
    var list := ReadingList(page, rtl);
    NumberedFacts(list, |list|);
    forall k | 0 <= k < |page.blocks|
      ensures page.blocks[k].index in Numbered(list, |list|)
    {
      ListMembers(page, rtl, page.blocks[k]);
      assert page.blocks[k] in list;
    }
    forall i | i in Numbered(list, |list|)
      ensures exists k :: 0 <= k < |page.blocks| && page.blocks[k].index == i
    {
      var b := list[Numbered(list, |list|)[i]];
      assert b in list;
      ListMembers(page, rtl, b);
      assert b in page.blocks;
    }
  }

  ghost predicate Taken(order: map<nat, nat>, p: nat) {
    exists i :: i in order && order[i] == p
  }

  /** The positions are exactly 0..n-1. */
  ghost predicate OntoRange(order: map<nat, nat>, n: nat) {
    && (forall i :: i in order ==> order[i] < n)
    && (forall p :: 0 <= p < n ==> Taken(order, p))
  }

  lemma {:induction false} NoGapWithoutOverlap(page: Page, rtl: bool)
    requires DistinctIndices(page.blocks) && CountBoth(page.blocks, page) == 0
    ensures OntoRange(Numbered(ReadingList(page, rtl), |ReadingList(page, rtl)|), |page.blocks|)
  {
    var list := ReadingList(page, rtl);
    var order := Numbered(list, |list|);
    ListZones(page, rtl);
    ZonesCount(page.blocks, page);
    NumberedFacts(list, |list|);
    forall p | 0 <= p < |page.blocks|
      ensures Taken(order, p)
    {
      NumberedOnce(page, list, p);
      assert list[p].index in order;
    }
  }

  lemma {:induction false} NumberedOnce(page: Page, list: seq<Block>, p: nat)
    requires DistinctIndices(page.blocks) && multiset(list) == multiset(page.blocks) && p < |list|
    ensures list[p].index in Numbered(list, |list|) && Numbered(list, |list|)[list[p].index] == p
  {
    NumberedFacts(list, |list|);
    var q := Numbered(list, |list|)[list[p].index];
    assert list[p] in multiset(page.blocks) && list[q] in multiset(page.blocks);
    SameIndexSameBlock(page.blocks, list[p], list[q]);
    DistinctMultiplicity(page.blocks, list[p]);
    if p < q { RepeatedMultiplicity(list, p, q); }
  }

  lemma {:induction false} SameIndexSameBlock(blocks: seq<Block>, a: Block, b: Block)
    requires DistinctIndices(blocks) && a in blocks && b in blocks && a.index == b.index
    ensures a == b
  {
  }

  /** The positions are a bijection onto 0..n-1 exactly when no block lies in both bands: such a
      block is numbered twice and leaves its first number unused. */
  lemma {:induction false} PositionsOntoRange(page: Page, rtl: bool)
    requires DistinctIndices(page.blocks)
    ensures OntoRange(Numbered(ReadingList(page, rtl), |ReadingList(page, rtl)|), |page.blocks|)
            <==> forall k :: 0 <= k < |page.blocks| ==> !InBothBands(page.blocks[k], page)
  {
    var list := ReadingList(page, rtl);
    var order := Numbered(list, |list|);
    SomeInBoth(page.blocks, page);
    if CountBoth(page.blocks, page) == 0 {
      NoGapWithoutOverlap(page, rtl);
    } else {
      ListZones(page, rtl);
      ZonesCount(page.blocks, page);
      NumberedFacts(list, |list|);
      assert order[list[|list| - 1].index] == |list| - 1;
    }
  }

  // ---------------------------------------------------------------- order of the positions

  predicate OccursIn(list: seq<Block>, from: nat, to: nat, index: nat)
    requires from <= to <= |list|
  {
    exists p :: from <= p < to && list[p].index == index
  }

  /** A block met only before `split` is numbered before one met at or after it. */
  lemma {:induction false} SplitsOrder(list: seq<Block>, split: nat, a: nat, b: nat)
    requires split <= |list|
    requires OccursIn(list, 0, split, a) && !OccursIn(list, split, |list|, a) && OccursIn(list, split, |list|, b)
    ensures a in Numbered(list, |list|) && b in Numbered(list, |list|)
    ensures Numbered(list, |list|)[a] < split <= Numbered(list, |list|)[b]
  {
    NumberedFacts(list, |list|);
    var p :| 0 <= p < split && list[p].index == a;
    var q :| split <= q < |list| && list[q].index == b;
    assert list[p].index in Numbered(list, |list|) && list[q].index in Numbered(list, |list|);
    assert list[Numbered(list, |list|)[a]].index == a;
  }

  lemma {:induction false} PartOccurs(before: seq<Block>, part: seq<Block>, after: seq<Block>, b: Block)
    requires b in part
    ensures var list := before + part + after;
            && OccursIn(list, |before|, |list|, b.index) && OccursIn(list, 0, |before + part|, b.index)
  {
    var i :| 0 <= i < |part| && part[i] == b;
    assert (before + part + after)[|before| + i].index == b.index;
  }

  lemma {:induction false} PartAbsent(before: seq<Block>, part: seq<Block>, b: Block)
    requires forall i :: 0 <= i < |part| ==> part[i].index != b.index
    ensures !OccursIn(before + part, |before|, |before + part|, b.index)
  {
  }

  /** Members of a zone are blocks of the page in that zone. */
  lemma {:induction false} ZoneBlocksMembers(blocks: seq<Block>, page: Page, zone: Zone, b: Block)
    ensures b in ZoneBlocks(blocks, page, zone) <==> b in blocks && InZone(b, page, zone)
  {
    if blocks != [] {
      ZoneBlocksMembers(blocks[..|blocks| - 1], page, zone, b);
      assert blocks == blocks[..|blocks| - 1] + [Last(blocks)];
    }
  }

  lemma {:induction false} SortedZoneMembers(page: Page, zone: Zone, b: Block)
    ensures b in Sort(ZoneBlocks(page.blocks, page, zone), ByTop) <==> b in page.blocks && InZone(b, page, zone)
  {
    OrderIsTotal();
    SortMembers(ZoneBlocks(page.blocks, page, zone), ByTop, b);
    ZoneBlocksMembers(page.blocks, page, zone, b);
  }

  lemma {:induction false} BodyMembers(page: Page, rtl: bool, b: Block)
    ensures b in Flatten(SortRows(OrderedColumns(page, rtl))) <==> b in page.blocks && InZone(b, page, Body)
  {
    var list := Flatten(SortRows(OrderedColumns(page, rtl)));
    BodyConserved(page, rtl);
    assert b in list <==> b in multiset(list);
    assert b in ZoneBlocks(page.blocks, page, Body) <==> b in multiset(ZoneBlocks(page.blocks, page, Body));
    ZoneBlocksMembers(page.blocks, page, Body, b);
  }

  lemma {:induction false} NotInPart(page: Page, part: seq<Block>, b: Block)
    requires DistinctIndices(page.blocks) && b in page.blocks && b !in part
    requires forall i :: 0 <= i < |part| ==> part[i] in page.blocks
    ensures forall i :: 0 <= i < |part| ==> part[i].index != b.index
  {
    forall i | 0 <= i < |part|
      ensures part[i].index != b.index
    {
      assert part[i] in part;
      assert part[i] in page.blocks;
    }
  }

  /** The reading list split in two: a block met only in the first part is numbered before one
      met in the second. */
  lemma {:induction false} NumberedBefore(
    page: Page, rtl: bool, first: seq<Block>, second: seq<Block>, a: Block, b: Block)
    requires DistinctIndices(page.blocks) && ReadingList(page, rtl) == first + second
    requires a in first && a !in second && b in second
    ensures var order := Numbered(ReadingList(page, rtl), |ReadingList(page, rtl)|);
            a.index in order && b.index in order && order[a.index] < order[b.index]
  {
    hide Numbered, ReadingList;
    var list := ReadingList(page, rtl);
    assert list == [] + first + second == first + second + [];
    forall k | 0 <= k < |list|
      ensures list[k] in page.blocks
    {
      ListMembers(page, rtl, list[k]);
    }
    assert forall k :: 0 <= k < |second| ==> second[k] == list[|first| + k];
    assert a in list;
    NotInPart(page, second, a);
    PartOccurs([], first, second, a);
    PartOccurs(first, second, [], b);
    PartAbsent(first, second, a);
    assert [] + first == first;
    SplitsOrder(list, |first|, a.index, b.index);
  }

  lemma {:induction false} PartsMembers(page: Page, rtl: bool, x: Block)
    ensures x in Sort(ZoneBlocks(page.blocks, page, Header), ByTop) <==> x in page.blocks && InZone(x, page, Header)
    ensures x in Flatten(SortRows(OrderedColumns(page, rtl))) <==> x in page.blocks && InZone(x, page, Body)
    ensures x in Sort(ZoneBlocks(page.blocks, page, Footer), ByTop) <==> x in page.blocks && InZone(x, page, Footer)
  {
    SortedZoneMembers(page, Header, x);
    BodyMembers(page, rtl, x);
    SortedZoneMembers(page, Footer, x);
  }

  /** Reading order of the zones: a block of the header band alone comes before every body
      block, and every body block before every block of the footer band. */
  lemma {:induction false} HeadersFirstFootersLast(page: Page, rtl: bool, h: Block, b: Block, f: Block)
    requires DistinctIndices(page.blocks)
    requires h in page.blocks && InHeaderBand(h, page) && !InFooterBand(h, page)
    requires b in page.blocks && InZone(b, page, Body)
    requires f in page.blocks && InFooterBand(f, page)
    ensures var order := Numbered(ReadingList(page, rtl), |ReadingList(page, rtl)|);
            && h.index in order && b.index in order && f.index in order
            && order[h.index] < order[b.index] < order[f.index]
  {
    hide Numbered, Sort, SortRows, OrderedColumns, ZoneBlocks, Flatten;
    var headers := Sort(ZoneBlocks(page.blocks, page, Header), ByTop);
    var body := Flatten(SortRows(OrderedColumns(page, rtl)));
    var footers := Sort(ZoneBlocks(page.blocks, page, Footer), ByTop);
    assert headers + body + footers == headers + (body + footers);
    PartsMembers(page, rtl, h);
    PartsMembers(page, rtl, b);
    PartsMembers(page, rtl, f);
    NumberedBefore(page, rtl, headers, body + footers, h, b);
    NumberedBefore(page, rtl, headers + body, footers, b, f);
  }

  /** A sorted list cut at `b`: what does not come at or after `b` in the order lies before the cut. */
  lemma {:induction false} CutAt(list: seq<Block>, leq: (Block, Block) -> bool, a: Block, b: Block)
    returns (first: seq<Block>, second: seq<Block>)
    requires Sorted(list, leq) && leq(a, a) && leq(b, b) && a in list && b in list && !leq(b, a)
    ensures list == first + second && a in first && a !in second && b in second
  {
    var p :| 0 <= p < |list| && list[p] == a;
    var q :| 0 <= q < |list| && list[q] == b;
    first, second := list[..q], list[q..];
    forall k | 0 <= k < |second|
      ensures second[k] != a
    {
      if k > 0 { assert leq(list[q], list[q + k]); }
    }
    assert p < q;
    assert first[p] == a && second[0] == b;
  }

  /** Inside the header band, and inside the footer band, the blocks come from the top down and
      on one height from the left. */
  lemma {:induction false} BandsFromTheTop(page: Page, rtl: bool, a: Block, b: Block)
    requires DistinctIndices(page.blocks) && a in page.blocks && b in page.blocks
    requires (InHeaderBand(a, page) && !InFooterBand(a, page) && InHeaderBand(b, page))
             || (InFooterBand(a, page) && InFooterBand(b, page))
    requires a.y0 < b.y0 || (a.y0 == b.y0 && a.x0 < b.x0)
    ensures var order := Numbered(ReadingList(page, rtl), |ReadingList(page, rtl)|);
            a.index in order && b.index in order && order[a.index] < order[b.index]
  {
    hide Numbered, Sort, SortRows, OrderedColumns, ZoneBlocks, Flatten, Sorted, TotalPreorder;
    var headers := Sort(ZoneBlocks(page.blocks, page, Header), ByTop);
    var body := Flatten(SortRows(OrderedColumns(page, rtl)));
    var footers := Sort(ZoneBlocks(page.blocks, page, Footer), ByTop);
    OrderIsTotal();
    PartsMembers(page, rtl, a);
    PartsMembers(page, rtl, b);
    if InFooterBand(a, page) {
      SortSorted(ZoneBlocks(page.blocks, page, Footer), ByTop);
      var first, second := CutAt(footers, ByTop, a, b);
      assert headers + body + footers == (headers + body + first) + second;
      NumberedBefore(page, rtl, headers + body + first, second, a, b);
    } else {
      SortSorted(ZoneBlocks(page.blocks, page, Header), ByTop);
      var first, second := CutAt(headers, ByTop, a, b);
      assert headers + body + footers == first + (second + body + footers);
      NumberedBefore(page, rtl, first, second + body + footers, a, b);
    }
  }

  lemma {:induction false} SortRowsAt(columns: seq<seq<Block>>, c: nat)
    requires c < |columns|
    ensures |SortRows(columns)| == |columns| && SortRows(columns)[c] == Sort(columns[c], ByRow)
  {
    hide Sort;
    if |columns| > 1 { SortRowsAt(columns[1..], if c > 0 then c - 1 else 0); }
  }

  lemma {:induction false} InOnePart(x: seq<Block>, y: seq<Block>, a: Block)
    requires multiset(x + y)[a] <= 1 && a in x
    ensures a !in y
  {
    assert multiset(x + y) == multiset(x) + multiset(y);
  }

  lemma {:induction false} BodyOnce(page: Page, rtl: bool, a: Block)
    requires DistinctIndices(page.blocks)
    ensures multiset(Flatten(SortRows(OrderedColumns(page, rtl))))[a] <= 1
  {
    BodyConserved(page, rtl);
    ZoneDistinct(page.blocks, page);
    DistinctMultiplicity(ZoneBlocks(page.blocks, page, Body), a);
  }

  lemma {:induction false} ZoneDistinct(blocks: seq<Block>, page: Page)
    requires DistinctIndices(blocks)
    ensures DistinctIndices(ZoneBlocks(blocks, page, Body))
  {
    if blocks != [] {
      var front := blocks[..|blocks| - 1];
      ZoneDistinct(front, page);
      var zone := ZoneBlocks(front, page, Body);
      forall i | 0 <= i < |zone|
        ensures zone[i].index != Last(blocks).index
      {
        assert zone[i] in zone;
        ZoneBlocksMembers(front, page, Body, zone[i]);
        var k :| 0 <= k < |front| && front[k] == zone[i];
        assert blocks[k] == front[k];
      }
    }
  }

  /** The body split before column `j`: blocks of earlier columns lie before the split only. */
  lemma {:induction false} SplitAtColumn(columns: seq<seq<Block>>, i: nat, j: nat, a: Block, b: Block)
    returns (first: seq<Block>, second: seq<Block>)
    requires i < j < |columns| && a in columns[i] && b in columns[j]
    requires multiset(Flatten(SortRows(columns)))[a] <= 1
    ensures Flatten(SortRows(columns)) == first + second
    ensures a in first && a !in second && b in second
  {
    hide Sort, SortRows, Flatten;
    var rows := SortRows(columns);
    SortRowsAt(columns, i);
    SortRowsAt(columns, j);
    OrderIsTotal();
    SortMembers(columns[i], ByRow, a);
    SortMembers(columns[j], ByRow, b);
    assert rows == rows[..j] + rows[j..];
    FlattenConcat(rows[..j], rows[j..]);
    first, second := Flatten(rows[..j]), Flatten(rows[j..]);
    var p :| 0 <= p < |rows[i]| && rows[i][p] == a;
    var q :| 0 <= q < |rows[j]| && rows[j][q] == b;
    FlattenMember(rows[..j], i, p);
    FlattenMember(rows[j..], 0, q);
    InOnePart(first, second, a);
  }

  /** `v` is where the leftmost block of the column starts. */
  predicate LeftEdge(column: seq<Block>, v: real) {
    && (exists i :: 0 <= i < |column| && column[i].x0 == v)
    && forall i :: 0 <= i < |column| ==> v <= column[i].x0
  }

  /** `v` is where the rightmost block of the column ends. */
  predicate RightEdge(column: seq<Block>, v: real) {
    && (exists i :: 0 <= i < |column| && column[i].x1 == v)
    && forall i :: 0 <= i < |column| ==> column[i].x1 <= v
  }

  lemma {:induction false} MinLeftIsEdge(column: seq<Block>, v: real)
    requires column != []
    ensures LeftEdge(column, v) <==> v == MinLeft(column)
  {
    if |column| > 1 {
      MinLeftIsEdge(column[1..], MinLeft(column[1..]));
      var rest := MinLeft(column[1..]);
      var i :| 0 <= i < |column[1..]| && column[1..][i].x0 == rest;
      assert column[i + 1].x0 == rest;
      assert forall k :: 0 < k < |column| ==> column[k] == column[1..][k - 1];
    }
    assert LeftEdge(column, MinLeft(column));
  }

  lemma {:induction false} MaxRightIsEdge(column: seq<Block>, v: real)
    requires column != []
    ensures RightEdge(column, v) <==> v == MaxRight(column)
  {
    if |column| > 1 {
      MaxRightIsEdge(column[1..], MaxRight(column[1..]));
      var rest := MaxRight(column[1..]);
      var i :| 0 <= i < |column[1..]| && column[1..][i].x1 == rest;
      assert column[i + 1].x1 == rest;
      assert forall k :: 0 < k < |column| ==> column[k] == column[1..][k - 1];
    }
    assert RightEdge(column, MaxRight(column));
  }

  /** By left edge and, on the same left edge, by right edge. */
  ghost predicate EdgesInOrder(a: seq<Block>, b: seq<Block>) {
    forall v, w :: LeftEdge(a, v) && LeftEdge(b, w) ==>
      v < w || (v == w && forall x, y :: RightEdge(a, x) && RightEdge(b, y) ==> x <= y)
  }

  lemma {:induction false} PositionsAreEdges(a: seq<Block>, b: seq<Block>)
    requires a != [] && b != [] && LeftFirst(a, b)
    ensures EdgesInOrder(a, b)
  {
    hide MinLeft, MaxRight, LeftEdge, RightEdge;
    forall v, w | LeftEdge(a, v) && LeftEdge(b, w)
      ensures v < w || (v == w && forall x, y :: RightEdge(a, x) && RightEdge(b, y) ==> x <= y)
    {
      MinLeftIsEdge(a, v);
      MinLeftIsEdge(b, w);
      forall x, y | RightEdge(a, x) && RightEdge(b, y)
        ensures x == MaxRight(a) && y == MaxRight(b)
      {
        MaxRightIsEdge(a, x);
        MaxRightIsEdge(b, y);
      }
    }
  }

  lemma {:induction false} OrderedColumnsMembers(page: Page, rtl: bool, column: seq<Block>)
    ensures column in OrderedColumns(page, rtl)
            <==> column in ClusterColumns(ZoneBlocks(page.blocks, page, Body), page.width)
  {
    hide ClusterColumns, MinLeft, MaxRight, ZoneBlocks;
    ColumnOrderIsTotal();
    SortMembers(ClusterColumns(ZoneBlocks(page.blocks, page, Body), page.width),
                if rtl then RightFirst else LeftFirst, column);
  }

  /** A chain of blocks of the page outside both bands, from `a` to `b`, neighbouring centres at
      most 18% of the page width apart. */
  ghost predicate LinkedInBody(page: Page, a: Block, b: Block) {
    exists path: seq<Block> :: ChainInBody(page, path) && path[0] == a && Last(path) == b
  }

  ghost predicate ChainInBody(page: Page, path: seq<Block>) {
    && path != []
    && (forall k :: 0 <= k < |path| ==>
          path[k] in page.blocks && !InHeaderBand(path[k], page) && !InFooterBand(path[k], page))
    && (forall k :: 0 <= k < |path| - 1 ==> Near(path[k], path[k + 1], page.width * COLUMN_GAP))
  }

  lemma {:induction false} ChainsOfBody(page: Page, path: seq<Block>)
    ensures ChainInBody(page, path)
            <==> Chain(path, ZoneBlocks(page.blocks, page, Body), page.width * COLUMN_GAP)
  {
    forall b
      ensures b in ZoneBlocks(page.blocks, page, Body) <==> b in page.blocks && InZone(b, page, Body)
    {
      ZoneBlocksMembers(page.blocks, page, Body, b);
    }
  }

  /** The columns that are numbered are those of the body blocks of the page: none is empty, two
      body blocks share one exactly when a chain of body blocks links them, and every body block is
      in one. */
  lemma {:induction false} ColumnsOfPage(page: Page, rtl: bool, a: Block, b: Block)
    requires a in page.blocks && InZone(a, page, Body) && b in page.blocks && InZone(b, page, Body)
    ensures SameColumn(a, b, OrderedColumns(page, rtl)) <==> LinkedInBody(page, a, b)
    ensures SameColumn(a, a, OrderedColumns(page, rtl))
    ensures forall c :: 0 <= c < |OrderedColumns(page, rtl)| ==> OrderedColumns(page, rtl)[c] != []
  {
    hide ZoneBlocks, ClusterColumns, OrderedColumns, Chain, ChainInBody;
    var body := ZoneBlocks(page.blocks, page, Body);
    ZoneBlocksMembers(page.blocks, page, Body, a);
    ZoneBlocksMembers(page.blocks, page, Body, b);
    SharedColumns(page, rtl, a, b);
    SharedColumns(page, rtl, a, a);
    ColumnsAreChains(body, page.width, a, b);
    ColumnsAreChains(body, page.width, a, a);
    LinkedBothWays(page, a, b);
    LinkedBothWays(page, a, a);
    LinkedToItself(page, a);
    ClusterConserves(body, page.width);
    forall c | 0 <= c < |OrderedColumns(page, rtl)|
      ensures OrderedColumns(page, rtl)[c] != []
    {
      OrderedColumnsMembers(page, rtl, OrderedColumns(page, rtl)[c]);
    }
  }

  lemma {:induction false} LinkedToItself(page: Page, a: Block)
    requires a in page.blocks && InZone(a, page, Body)
    ensures LinkedInBody(page, a, a)
  {
    assert ChainInBody(page, [a]) && Last([a]) == a;
  }

  lemma {:induction false} LinkedBothWays(page: Page, a: Block, b: Block)
    ensures LinkedInBody(page, a, b)
            <==> Linked(a, b, ZoneBlocks(page.blocks, page, Body), page.width * COLUMN_GAP)
  {
    hide ZoneBlocks;
    forall path: seq<Block>
      ensures ChainInBody(page, path)
              <==> Chain(path, ZoneBlocks(page.blocks, page, Body), page.width * COLUMN_GAP)
    {
      ChainsOfBody(page, path);
    }
    if LinkedInBody(page, a, b) {
      var path: seq<Block> :| ChainInBody(page, path) && path[0] == a && Last(path) == b;
      assert Chain(path, ZoneBlocks(page.blocks, page, Body), page.width * COLUMN_GAP);
    }
  }

  lemma {:induction false} SameMembers(a: Block, b: Block, columns: seq<seq<Block>>, other: seq<seq<Block>>)
    requires (forall column: seq<Block> :: column in columns ==> column in other) && SameColumn(a, b, columns)
    ensures SameColumn(a, b, other)
  {
    var c :| 0 <= c < |columns| && a in columns[c] && b in columns[c];
    assert columns[c] in other;
  }

  lemma {:induction false} SharedColumns(page: Page, rtl: bool, a: Block, b: Block)
    ensures SameColumn(a, b, OrderedColumns(page, rtl))
            <==> SameColumn(a, b, ClusterColumns(ZoneBlocks(page.blocks, page, Body), page.width))
  {
    hide ZoneBlocks, ClusterColumns, OrderedColumns, SameColumn;
    var ordered := OrderedColumns(page, rtl);
    var clustered := ClusterColumns(ZoneBlocks(page.blocks, page, Body), page.width);
    forall column: seq<Block>
      ensures column in ordered <==> column in clustered
    {
      OrderedColumnsMembers(page, rtl, column);
    }
    if SameColumn(a, b, ordered) { SameMembers(a, b, ordered, clustered); }
    if SameColumn(a, b, clustered) { SameMembers(a, b, clustered, ordered); }
  }

  /** Column-major order: columns come left to right, or right to left, and every block of an
      earlier column is numbered before every block of a later one. */
  lemma {:induction false} ColumnMajor(page: Page, rtl: bool, i: nat, j: nat, a: Block, b: Block)
    requires DistinctIndices(page.blocks) && i < j < |OrderedColumns(page, rtl)|
    requires a in OrderedColumns(page, rtl)[i] && b in OrderedColumns(page, rtl)[j]
    ensures var left, right := if rtl then j else i, if rtl then i else j;
            EdgesInOrder(OrderedColumns(page, rtl)[left], OrderedColumns(page, rtl)[right])
    ensures var order := Numbered(ReadingList(page, rtl), |ReadingList(page, rtl)|);
            a.index in order && b.index in order && order[a.index] < order[b.index]
  {
    hide Numbered, Sort, SortRows, ClusterColumns, ZoneBlocks, Flatten, EdgesInOrder, MinLeft, MaxRight;
    ColumnsInDirection(page, rtl);
    var left, right := if rtl then j else i, if rtl then i else j;
    PositionsAreEdges(OrderedColumns(page, rtl)[left], OrderedColumns(page, rtl)[right]);
    BodyOnce(page, rtl, a);
    var first, second := SplitAtColumn(OrderedColumns(page, rtl), i, j, a, b);
    NumberedAcross(page, rtl, first, second, a, b);
  }

  lemma {:induction false} ColumnsInDirection(page: Page, rtl: bool)
    ensures Sorted(OrderedColumns(page, rtl), if rtl then RightFirst else LeftFirst)
  {
    hide ClusterColumns, MinLeft, MaxRight;
    ColumnOrderIsTotal();
    SortFacts(ClusterColumns(ZoneBlocks(page.blocks, page, Body), page.width), if rtl then RightFirst else LeftFirst);
  }

  lemma {:induction false} ColumnOrderIsTotal()
    ensures TotalPreorder(LeftFirst) && TotalPreorder(RightFirst)
  {
    hide MinLeft, MaxRight;
  }

  lemma {:induction false} NumberedAcross(
    page: Page, rtl: bool, first: seq<Block>, second: seq<Block>, a: Block, b: Block)
    requires DistinctIndices(page.blocks)
    requires Flatten(SortRows(OrderedColumns(page, rtl))) == first + second
    requires a in first && a !in second && b in second
    ensures var order := Numbered(ReadingList(page, rtl), |ReadingList(page, rtl)|);
            a.index in order && b.index in order && order[a.index] < order[b.index]
  {
    hide Numbered, Sort, SortRows, OrderedColumns, ZoneBlocks, Flatten;
    var headers := Sort(ZoneBlocks(page.blocks, page, Header), ByTop);
    var footers := Sort(ZoneBlocks(page.blocks, page, Footer), ByTop);
    assert headers + (first + second) + footers == (headers + first) + (second + footers);
    assert a in first + second;
    PartsMembers(page, rtl, a);
    NumberedBefore(page, rtl, headers + first, second + footers, a, b);
  }

  /** The body split inside column `c` at `b`. */
  lemma {:induction false} SplitInColumn(columns: seq<seq<Block>>, c: nat, a: Block, b: Block)
    returns (first: seq<Block>, second: seq<Block>)
    requires c < |columns| && a in columns[c] && b in columns[c] && !ByRow(b, a)
    requires multiset(Flatten(SortRows(columns)))[a] <= 1
    ensures Flatten(SortRows(columns)) == first + second
    ensures a in first && a !in second && b in second
  {
    hide Sort, SortRows, Flatten, Sorted;
    var rows := SortRows(columns);
    SortRowsAt(columns, c);
    OrderIsTotal();
    SortMembers(columns[c], ByRow, a);
    SortMembers(columns[c], ByRow, b);
    SortSorted(columns[c], ByRow);
    var upper, lower := CutAt(rows[c], ByRow, a, b);
    assert rows == rows[..c] + ([rows[c]] + rows[c + 1..]);
    FlattenConcat(rows[..c], [rows[c]] + rows[c + 1..]);
    FlattenConcat([rows[c]], rows[c + 1..]);
    FlattenSingle(rows[c]);
    first, second := Flatten(rows[..c]) + upper, lower + Flatten(rows[c + 1..]);
    assert Flatten(rows) == Flatten(rows[..c]) + (upper + lower + Flatten(rows[c + 1..])) == first + second;
    InOnePart(first, second, a);
  }

  /** Rounding to tenths goes to the nearest tenth, and half way to the even one. */
  lemma {:induction false} TenthsIsNearest(y: real)
    ensures -0.5 <= y * 10.0 - Tenths(y) as real <= 0.5
    ensures y * 10.0 - Tenths(y) as real == 0.5 || y * 10.0 - Tenths(y) as real == -0.5 ==> Tenths(y) % 2 == 0
  {
    var t := (y * 10.0).Floor;
    var rest := y * 10.0 - t as real;
    assert 0.0 <= rest < 1.0;
  }

  /** Inside a column the blocks come from the top down by rounded height and in a row from the
      left. */
  lemma {:induction false} ColumnFromTheTop(page: Page, rtl: bool, c: nat, a: Block, b: Block)
    requires DistinctIndices(page.blocks) && c < |OrderedColumns(page, rtl)|
    requires a in OrderedColumns(page, rtl)[c] && b in OrderedColumns(page, rtl)[c]
    requires Tenths(a.y0) < Tenths(b.y0) || (Tenths(a.y0) == Tenths(b.y0) && a.x0 < b.x0)
    ensures var order := Numbered(ReadingList(page, rtl), |ReadingList(page, rtl)|);
            a.index in order && b.index in order && order[a.index] < order[b.index]
  {
    hide Numbered, Sort, SortRows, OrderedColumns, ZoneBlocks, Flatten, Tenths;
    BodyOnce(page, rtl, a);
    var first, second := SplitInColumn(OrderedColumns(page, rtl), c, a, b);
    NumberedAcross(page, rtl, first, second, a, b);
  }
}
