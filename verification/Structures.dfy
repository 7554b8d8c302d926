/** Section ranges of a book and the section active on each page, from one scan of its
    headings. */
module Structures {
  import opened Sequences
  import ChunkUnits

  type Level = ChunkUnits.Level

  datatype Heading = Heading(level: Level, name: string)

  /** The body headings of one page, top to bottom. */
  datatype Page = Page(number: nat, headings: seq<Heading>)

  datatype Structure = Structure(level: Level, name: string, pageStart: nat, pageEnd: int)

  /** A section that is still open. */
  datatype Mark = Mark(page: nat, name: string)

  /** The scan's variables: the open sections, in the order their levels first occurred, and
      the ranges emitted so far. */
  datatype Scan = Scan(current: map<Level, Mark>, keys: seq<Level>, structures: seq<Structure>)

  // ---------------------------------------------------------------- the scan

  function AfterHeading(s: Scan, number: nat, h: Heading): Scan {
    var closed :=
      if h.level in s.current && s.current[h.level].page != number
      then [Structure(h.level, s.current[h.level].name, s.current[h.level].page, number - 1)]
      else [];
    Scan(s.current[h.level := Mark(number, h.name)],
         if h.level in s.current then s.keys else s.keys + [h.level],
         s.structures + closed)
  }

  function AfterHeadings(s: Scan, page: Page, n: nat): Scan
    requires n <= |page.headings|
  {
    if n == 0 then s else AfterHeading(AfterHeadings(s, page, n - 1), page.number, page.headings[n - 1])
  }

  function AfterPages(pages: seq<Page>, n: nat): Scan
    requires n <= |pages|
  {
    if n == 0 then Scan(map[], [], [])
    else AfterHeadings(AfterPages(pages, n - 1), pages[n - 1], |pages[n - 1].headings|)
  }

  /** The names stored for a page: sections above topic level. */
  function ActiveNames(current: map<Level, Mark>): map<Level, string> {
    map level | level in current && level != ChunkUnits.Topic :: current[level].name
  }

  function PerPage(pages: seq<Page>, n: nat): map<nat, map<Level, string>>
    requires n <= |pages|
  {
    if n == 0 then map[]
    else PerPage(pages, n - 1)[pages[n - 1].number := ActiveNames(AfterPages(pages, n).current)]
  }

  function LastPage(pages: seq<Page>): nat { if pages == [] then 0 else Last(pages).number }

  function FinalRange(level: Level, mark: Mark, last: nat): Structure {
    Structure(level, mark.name, mark.page, if last >= mark.page then last else mark.page)
  }

  /** The list once the first `k` open sections are closed. */
  function Closing(s: Scan, k: nat, last: nat): seq<Structure>
    requires k <= |s.keys| && forall i :: 0 <= i < |s.keys| ==> s.keys[i] in s.current
  {
    if k == 0 then s.structures
    else Closing(s, k - 1, last) + [FinalRange(s.keys[k - 1], s.current[s.keys[k - 1]], last)]
  }

  ghost predicate KeysSane(s: Scan) {
    && (forall level :: level in s.keys <==> level in s.current)
    && (forall i :: 0 <= i < |s.keys| ==> s.keys[i] in s.current)
    && (forall i, j :: 0 <= i < j < |s.keys| ==> s.keys[i] != s.keys[j])
  }

  lemma {:induction false} HeadingKeepsKeys(s: Scan, number: nat, h: Heading)
    requires KeysSane(s)
    ensures KeysSane(AfterHeading(s, number, h))
  {
    var after := AfterHeading(s, number, h);
    if h.level !in s.current {
      forall i | 0 <= i < |s.keys|
        ensures s.keys[i] != h.level
      {
        assert s.keys[i] in s.keys;
      }
    }
  }

  lemma {:induction false} HeadingsKeepKeys(s: Scan, page: Page, n: nat)
    requires n <= |page.headings| && KeysSane(s)
    ensures KeysSane(AfterHeadings(s, page, n))
  {
    if n > 0 {
      HeadingsKeepKeys(s, page, n - 1);
      HeadingKeepsKeys(AfterHeadings(s, page, n - 1), page.number, page.headings[n - 1]);
    }
  }

  lemma {:induction false} PagesKeepKeys(pages: seq<Page>, n: nat)
    requires n <= |pages|
    ensures KeysSane(AfterPages(pages, n))
  {
    if n > 0 {
      PagesKeepKeys(pages, n - 1);
      HeadingsKeepKeys(AfterPages(pages, n - 1), pages[n - 1], |pages[n - 1].headings|);
    }
  }

  /** All ranges of the book. */
  function Detected(pages: seq<Page>): seq<Structure> {
    PagesKeepKeys(pages, |pages|);
    var s := AfterPages(pages, |pages|);
    Closing(s, |s.keys|, LastPage(pages))
  }

  /** The headings of one page. */
  method ScanPage(s: Scan, page: Page) returns (after: Scan)
    ensures after == AfterHeadings(s, page, |page.headings|)
  {
    var current, keys, structures := s.current, s.keys, s.structures;
    for h := 0 to |page.headings|
      invariant Scan(current, keys, structures) == AfterHeadings(s, page, h)
    {
      var heading := page.headings[h];
      if heading.level in current {
        var previous := current[heading.level];
        if previous.page != page.number {
          structures := structures + [Structure(heading.level, previous.name, previous.page, page.number - 1)];
        }
      } else {
        keys := keys + [heading.level];
      }
      current := current[heading.level := Mark(page.number, heading.name)];
    }
    after := Scan(current, keys, structures);
  }

  method DetectStructures(pages: seq<Page>)
    returns (structures: seq<Structure>, perPage: map<nat, map<Level, string>>)
    ensures structures == Detected(pages)
    ensures perPage == PerPage(pages, |pages|)
  {
    perPage := map[];
    var s := Scan(map[], [], []);
    for i := 0 to |pages|
      invariant s == AfterPages(pages, i)
      invariant perPage == PerPage(pages, i)
    {
      s := ScanPage(s, pages[i]);
      perPage := perPage[pages[i].number := ActiveNames(s.current)];
    }
    var lastPage := if pages == [] then 0 else pages[|pages| - 1].number;
    PagesKeepKeys(pages, |pages|);
    structures := s.structures;
    for k := 0 to |s.keys|
      invariant structures == Closing(s, k, lastPage)
    {
      var mark := s.current[s.keys[k]];
      structures := structures
        + [Structure(s.keys[k], mark.name, mark.page, if lastPage >= mark.page then lastPage else mark.page)];
    }
  }

  // ---------------------------------------------------------------- one level at a time

  /** The pages on which a section of one level starts, each with the last heading there. */
  function Marked(marks: seq<Mark>, number: nat, name: string): seq<Mark> {
    if marks != [] && Last(marks).page == number then marks[..|marks| - 1] + [Mark(number, name)]
    else marks + [Mark(number, name)]
  }

  function MarksIn(marks: seq<Mark>, page: Page, n: nat, level: Level): seq<Mark>
    requires n <= |page.headings|
  {
    if n == 0 then marks
    else
      var before := MarksIn(marks, page, n - 1, level);
      if page.headings[n - 1].level == level then Marked(before, page.number, page.headings[n - 1].name)
      else before
  }

  function Marks(pages: seq<Page>, n: nat, level: Level): seq<Mark>
    requires n <= |pages|
  {
    if n == 0 then [] else MarksIn(Marks(pages, n - 1, level), pages[n - 1], |pages[n - 1].headings|, level)
  }

  function OfLevel(structures: seq<Structure>, level: Level): seq<Structure> {
    if structures == [] then []
    else OfLevel(structures[..|structures| - 1], level)
         + (if Last(structures).level == level then [Last(structures)] else [])
  }

  lemma {:induction false} OfLevelAppend(structures: seq<Structure>, s: Structure, level: Level)
    ensures OfLevel(structures + [s], level) == OfLevel(structures, level) + (if s.level == level then [s] else [])
  {
    assert (structures + [s])[..|structures|] == structures;
  }

  /** Ranges of the first `k` marks, each ending before the next one starts. */
  function Closed(marks: seq<Mark>, k: nat, level: Level): seq<Structure>
    requires k < |marks| || k == 0
  {
    if k == 0 then []
    else Closed(marks, k - 1, level)
         + [Structure(level, marks[k - 1].name, marks[k - 1].page, marks[k].page - 1)]
  }

  function AllClosed(marks: seq<Mark>, level: Level): seq<Structure> {
    if marks == [] then [] else Closed(marks, |marks| - 1, level)
  }

  /** All ranges of a level. */
  function Ranges(marks: seq<Mark>, last: nat, level: Level): seq<Structure> {
    if marks == [] then [] else AllClosed(marks, level) + [FinalRange(level, Last(marks), last)]
  }

  lemma {:induction false} ClosedPrefix(a: seq<Mark>, b: seq<Mark>, k: nat, level: Level)
    requires k < |a| && k < |b| && a[..k] == b[..k] && a[k].page == b[k].page
    ensures Closed(a, k, level) == Closed(b, k, level)
  {
    if k > 0 {
      assert a[k - 1] == a[..k][k - 1] && b[k - 1] == b[..k][k - 1];
      assert a[..k - 1] == a[..k][..k - 1] && b[..k - 1] == b[..k][..k - 1];
      ClosedPrefix(a, b, k - 1, level);
    }
  }

  lemma {:induction false} ClosedMarked(marks: seq<Mark>, number: nat, name: string, level: Level)
    ensures AllClosed(Marked(marks, number, name), level)
            == AllClosed(marks, level)
               + (if marks != [] && Last(marks).page != number
                  then [Structure(level, Last(marks).name, Last(marks).page, number - 1)] else [])
  {
    if marks != [] {
      ClosedPrefix(marks, Marked(marks, number, name), |marks| - 1, level);
    }
  }

  /** The scan's variables agree with the marks of a level. */
  predicate Tracks(s: Scan, marks: seq<Mark>, level: Level) {
    && OfLevel(s.structures, level) == AllClosed(marks, level)
    && (level in s.current <==> marks != [])
    && (marks != [] ==> s.current[level] == Last(marks))
  }

  lemma {:induction false} HeadingTracks(s: Scan, marks: seq<Mark>, number: nat, h: Heading, level: Level)
    requires Tracks(s, marks, level)
    ensures Tracks(AfterHeading(s, number, h), if h.level == level then Marked(marks, number, h.name) else marks, level)
  {
    if h.level == level { ClosedMarked(marks, number, h.name, level); }
    if h.level in s.current && s.current[h.level].page != number {
      OfLevelAppend(
        s.structures, Structure(h.level, s.current[h.level].name, s.current[h.level].page, number - 1), level);
    } else {
      assert s.structures + [] == s.structures;
    }
  }

  lemma {:induction false} HeadingsTrack(s: Scan, marks: seq<Mark>, page: Page, n: nat, level: Level)
    requires n <= |page.headings| && Tracks(s, marks, level)
    ensures Tracks(AfterHeadings(s, page, n), MarksIn(marks, page, n, level), level)
  {
    if n > 0 {
      HeadingsTrack(s, marks, page, n - 1, level);
      HeadingTracks(AfterHeadings(s, page, n - 1), MarksIn(marks, page, n - 1, level),
                    page.number, page.headings[n - 1], level);
    }
  }

  lemma {:induction false} PagesTrack(pages: seq<Page>, n: nat, level: Level)
    requires n <= |pages|
    ensures Tracks(AfterPages(pages, n), Marks(pages, n, level), level)
  {
    if n > 0 {
      PagesTrack(pages, n - 1, level);
      HeadingsTrack(AfterPages(pages, n - 1), Marks(pages, n - 1, level), pages[n - 1],
                    |pages[n - 1].headings|, level);
    }
  }

  predicate Among(keys: seq<Level>, k: nat, level: Level)
    requires k <= |keys|
  {
    k > 0 && (keys[k - 1] == level || Among(keys, k - 1, level))
  }

  lemma {:induction false} AmongIsMember(keys: seq<Level>, k: nat, level: Level)
    requires k <= |keys|
    ensures Among(keys, k, level) <==> level in keys[..k]
  {
    if k > 0 {
      AmongIsMember(keys, k - 1, level);
      SliceAppend(keys, 0, k - 1);
    }
  }

  lemma {:induction false} OnlyOnce(s: Scan, k: nat)
    requires k < |s.keys| && KeysSane(s)
    ensures !Among(s.keys, k, s.keys[k])
  {
    AmongIsMember(s.keys, k, s.keys[k]);
  }

  lemma {:induction false} ClosingOfLevel(s: Scan, k: nat, last: nat, level: Level)
    requires k <= |s.keys| && KeysSane(s)
    ensures OfLevel(Closing(s, k, last), level)
            == if Among(s.keys, k, level) && level in s.current
               then OfLevel(s.structures, level) + [FinalRange(level, s.current[level], last)]
               else OfLevel(s.structures, level)
  {
    hide OfLevel, FinalRange;
    if k > 0 {
      ClosingOfLevel(s, k - 1, last, level);
      OnlyOnce(s, k - 1);
      assert s.keys[k - 1] in s.current;
      OfLevelAppend(Closing(s, k - 1, last), FinalRange(s.keys[k - 1], s.current[s.keys[k - 1]], last), level);
      FinalRangeLevel(s.keys[k - 1], s.current[s.keys[k - 1]], last);
    } else {
      assert !Among(s.keys, 0, level);
    }
  }

  lemma {:induction false} FinalRangeLevel(level: Level, mark: Mark, last: nat)
    ensures FinalRange(level, mark, last).level == level
  {
  }

  /** Level by level, the emitted ranges are those between the pages where sections start. */
  lemma {:induction false} DetectedOfLevel(pages: seq<Page>, level: Level)
    ensures OfLevel(Detected(pages), level) == Ranges(Marks(pages, |pages|, level), LastPage(pages), level)
  {
    PagesKeepKeys(pages, |pages|);
    PagesTrack(pages, |pages|, level);
    var s := AfterPages(pages, |pages|);
    ClosingOfLevel(s, |s.keys|, LastPage(pages), level);
    AmongIsMember(s.keys, |s.keys|, level);
    assert s.keys[..|s.keys|] == s.keys;
  }

  // ---------------------------------------------------------------- ranges over the book

  /** Pages come in strictly increasing number order. */
  predicate PagesIncrease(pages: seq<Page>) {
    forall i, j :: 0 <= i < j < |pages| ==> pages[i].number < pages[j].number
  }

  /** Marks on ascending pages, none after `bound`. */
  predicate Ascending(marks: seq<Mark>, bound: nat) {
    && (forall i, j :: 0 <= i < j < |marks| ==> marks[i].page < marks[j].page)
    && (forall i :: 0 <= i < |marks| ==> marks[i].page <= bound)
  }

  predicate HasHeading(page: Page, n: nat, level: Level)
    requires n <= |page.headings|
  {
    n > 0 && (page.headings[n - 1].level == level || HasHeading(page, n - 1, level))
  }

  /** The last heading of a level among the first `n` of a page. */
  function LastNameIn(before: Option<string>, page: Page, n: nat, level: Level): Option<string>
    requires n <= |page.headings|
  {
    if n == 0 then before
    else if page.headings[n - 1].level == level then Some(page.headings[n - 1].name)
    else LastNameIn(before, page, n - 1, level)
  }

  /** The latest heading of a level on the first `n` pages. */
  function LatestName(pages: seq<Page>, n: nat, level: Level): Option<string>
    requires n <= |pages|
  {
    if n == 0 then None
    else LastNameIn(LatestName(pages, n - 1, level), pages[n - 1], |pages[n - 1].headings|, level)
  }

  /** The first of the first `n` pages with a heading of the level, or `n`. */
  function FirstWithHeading(pages: seq<Page>, n: nat, level: Level): (p: nat)
    requires n <= |pages|
    ensures p <= n
    ensures p < n ==> HasHeading(pages[p], |pages[p].headings|, level)
    ensures forall q :: 0 <= q < p ==> !HasHeading(pages[q], |pages[q].headings|, level)
  {
    if n == 0 then 0
    else
      var p := FirstWithHeading(pages, n - 1, level);
      if p < n - 1 || HasHeading(pages[n - 1], |pages[n - 1].headings|, level) then p else n
  }

  predicate EndsWith(marks: seq<Mark>, name: Option<string>) {
    (marks == [] <==> name == None) && (marks != [] ==> name == Some(Last(marks).name))
  }

  /** `after` extends `marks` by the mark of one page, if the page has a heading. */
  predicate Extends(marks: seq<Mark>, after: seq<Mark>, number: nat, marked: bool, name: Option<string>) {
    && Ascending(after, number) && EndsWith(after, name)
    && marks <= after && |after| == |marks| + (if marked then 1 else 0)
    && (marked ==> Last(after).page == number)
  }

  lemma {:induction false} MarkedExtends(
    marks: seq<Mark>, after: seq<Mark>, bound: nat, number: nat, marked: bool, name: Option<string>, text: string)
    requires Ascending(marks, bound) && bound < number && Extends(marks, after, number, marked, name)
    ensures Extends(marks, Marked(after, number, text), number, true, Some(text))
  {
  }

  lemma {:induction false} MarksInFacts(
    marks: seq<Mark>, page: Page, n: nat, level: Level, bound: nat, name: Option<string>)
    requires n <= |page.headings| && Ascending(marks, bound) && bound < page.number && EndsWith(marks, name)
    ensures Extends(marks, MarksIn(marks, page, n, level), page.number, HasHeading(page, n, level),
                    LastNameIn(name, page, n, level))
  {
    if n > 0 {
      hide Extends, Marked, Ascending, EndsWith;
      MarksInFacts(marks, page, n - 1, level, bound, name);
      MarkedExtends(marks, MarksIn(marks, page, n - 1, level), bound, page.number, HasHeading(page, n - 1, level),
                    LastNameIn(name, page, n - 1, level), page.headings[n - 1].name);
    }
  }

  lemma {:induction false} MarksOnFirstPage(page: Page, n: nat, level: Level)
    requires n <= |page.headings|
    ensures var after := MarksIn([], page, n, level);
            && Ascending(after, page.number) && EndsWith(after, LastNameIn(None, page, n, level))
            && |after| == (if HasHeading(page, n, level) then 1 else 0)
            && (HasHeading(page, n, level) ==> Last(after).page == page.number)
  {
    if n > 0 { MarksOnFirstPage(page, n - 1, level); }
  }

  function Bound(pages: seq<Page>, n: nat): nat
    requires n <= |pages|
  {
    if n == 0 then 0 else pages[n - 1].number
  }

  lemma {:induction false} MarksFacts(pages: seq<Page>, n: nat, level: Level)
    requires n <= |pages| && PagesIncrease(pages)
    ensures var marks := Marks(pages, n, level);
            && Ascending(marks, Bound(pages, n)) && EndsWith(marks, LatestName(pages, n, level))
            && (marks == [] <==> FirstWithHeading(pages, n, level) == n)
            && (marks != [] ==> marks[0].page == pages[FirstWithHeading(pages, n, level)].number)
  {
    if n == 1 {
      MarksOnFirstPage(pages[0], |pages[0].headings|, level);
      assert Marks(pages, 0, level) == [] && LatestName(pages, 0, level) == None;
      assert FirstWithHeading(pages, 0, level) == 0;
    } else if n > 1 {
      MarksFacts(pages, n - 1, level);
      MarksInFacts(Marks(pages, n - 1, level), pages[n - 1], |pages[n - 1].headings|, level,
                   Bound(pages, n - 1), LatestName(pages, n - 1, level));
    }
  }

  /** Marks of earlier pages stay; those added later lie on later pages. */
  lemma {:induction false} MarksPrefix(pages: seq<Page>, n: nat, m: nat, level: Level)
    requires 0 < n <= m <= |pages| && PagesIncrease(pages)
    ensures var early, all := Marks(pages, n, level), Marks(pages, m, level);
            && early <= all
            && forall i :: |early| <= i < |all| ==> all[i].page > pages[n - 1].number
  {
    hide MarksIn, LatestName, LastNameIn, HasHeading, FirstWithHeading;
    if n < m {
      MarksPrefix(pages, n, m - 1, level);
      MarksFacts(pages, m - 1, level);
      MarksInFacts(Marks(pages, m - 1, level), pages[m - 1], |pages[m - 1].headings|, level,
                   Bound(pages, m - 1), LatestName(pages, m - 1, level));
    }
  }

  lemma {:induction false} ClosedAt(marks: seq<Mark>, k: nat, level: Level, i: nat)
    requires i < k < |marks|
    ensures |Closed(marks, k, level)| == k
    ensures Closed(marks, k, level)[i] == Structure(level, marks[i].name, marks[i].page, marks[i + 1].page - 1)
  {
    if i < k - 1 {
      ClosedAt(marks, k - 1, level, i);
    } else if k > 1 {
      ClosedAt(marks, k - 1, level, 0);
    }
  }

  lemma {:induction false} RangeAt(marks: seq<Mark>, last: nat, level: Level, i: nat)
    requires i < |marks| && Ascending(marks, last)
    ensures |Ranges(marks, last, level)| == |marks|
    ensures Ranges(marks, last, level)[i]
            == Structure(level, marks[i].name, marks[i].page, if i + 1 < |marks| then marks[i + 1].page - 1 else last)
  {
    if |marks| > 1 { ClosedAt(marks, |marks| - 1, level, if i + 1 < |marks| then i else 0); }
  }

  /** Ranges that start at `first`, follow each other without gap or overlap, and end at `last`. */
  predicate Tile(r: seq<Structure>, first: nat, last: nat) {
    && r != [] && r[0].pageStart == first && Last(r).pageEnd == last
    && (forall i :: 0 <= i < |r| ==> r[i].pageStart <= r[i].pageEnd)
    && (forall i :: 0 < i < |r| ==> r[i - 1].pageEnd + 1 == r[i].pageStart)
  }

  /** For each level the ranges are disjoint and contiguous and cover exactly the pages from the
      first heading of the level to the end of the book; without a heading there are none. */
  lemma {:induction false} RangesTile(pages: seq<Page>, level: Level)
    requires PagesIncrease(pages)
    ensures var first := FirstWithHeading(pages, |pages|, level);
            if first == |pages| then OfLevel(Detected(pages), level) == []
            else Tile(OfLevel(Detected(pages), level), pages[first].number, LastPage(pages))
  {
    hide Detected, Marks, LatestName, Closed, FinalRange;
    DetectedOfLevel(pages, level);
    MarksFacts(pages, |pages|, level);
    var marks, last := Marks(pages, |pages|, level), LastPage(pages);
    var r := Ranges(marks, last, level);
    if marks != [] {
      RangeAt(marks, last, level, 0);
      RangeAt(marks, last, level, |marks| - 1);
      forall i | 0 <= i < |r|
        ensures r[i].pageStart <= r[i].pageEnd && (i > 0 ==> r[i - 1].pageEnd + 1 == r[i].pageStart)
      {
        RangeAt(marks, last, level, i);
        if i > 0 { RangeAt(marks, last, level, i - 1); }
      }
    }
  }

  lemma {:induction false} PerPageAt(pages: seq<Page>, n: nat, j: nat)
    requires j < n <= |pages| && PagesIncrease(pages)
    ensures pages[j].number in PerPage(pages, n)
    ensures PerPage(pages, n)[pages[j].number] == ActiveNames(AfterPages(pages, j + 1).current)
  {
    if j < n - 1 { PerPageAt(pages, n - 1, j); }
  }

  predicate Contains(s: Structure, number: nat) { s.pageStart <= number <= s.pageEnd }

  lemma {:induction false} RangesAround(early: seq<Mark>, marks: seq<Mark>, number: nat, last: nat, level: Level)
    requires Ascending(marks, last) && Ascending(early, number) && early <= marks && number <= last
    requires forall i :: |early| <= i < |marks| ==> marks[i].page > number
    ensures |Ranges(marks, last, level)| == |marks|
    ensures forall k :: 0 <= k < |marks| ==> (Contains(Ranges(marks, last, level)[k], number) <==> k == |early| - 1)
    ensures early != [] ==> Ranges(marks, last, level)[|early| - 1].name == Last(early).name
  {
    if marks != [] { RangeAt(marks, last, level, 0); }
    if early != [] { RangeAt(marks, last, level, |early| - 1); }
    forall k | 0 <= k < |marks|
      ensures Contains(Ranges(marks, last, level)[k], number) <==> k == |early| - 1
    {
      RangeAt(marks, last, level, k);
      if k + 1 < |early| { assert marks[k + 1] == early[k + 1]; }
    }
  }

  lemma {:induction false} LastBounds(pages: seq<Page>, j: nat)
    requires PagesIncrease(pages) && j < |pages|
    ensures pages[j].number <= LastPage(pages) == Bound(pages, |pages|) && Bound(pages, j + 1) == pages[j].number
  {
  }

  /** Where page `j` lies among the ranges of a level. */
  lemma {:induction false} RangeOfPage(pages: seq<Page>, j: nat, level: Level)
    returns (i: int)
    requires PagesIncrease(pages) && j < |pages|
    ensures i < |OfLevel(Detected(pages), level)|
    ensures i < 0 <==> LatestName(pages, j + 1, level).None?
    ensures i >= 0 ==> LatestName(pages, j + 1, level) == Some(OfLevel(Detected(pages), level)[i].name)
    ensures forall k :: 0 <= k < |OfLevel(Detected(pages), level)| ==>
              (Contains(OfLevel(Detected(pages), level)[k], pages[j].number) <==> k == i)
  {
    hide Detected, Marks, LatestName, FirstWithHeading, Closed;
    DetectedOfLevel(pages, level);
    MarksFacts(pages, |pages|, level);
    MarksFacts(pages, j + 1, level);
    MarksPrefix(pages, j + 1, |pages|, level);
    LastBounds(pages, j);
    i := |Marks(pages, j + 1, level)| - 1;
    RangesAround(Marks(pages, j + 1, level), Marks(pages, |pages|, level), pages[j].number, LastPage(pages), level);
  }

  /** For every page and every level above topic: a name is stored exactly when the level has a
      heading up to that page, and it is the latest such heading. */
  lemma {:induction false} ActiveIsLatest(pages: seq<Page>, j: nat, level: Level)
    requires PagesIncrease(pages) && j < |pages|
    ensures pages[j].number in PerPage(pages, |pages|)
    ensures var names := PerPage(pages, |pages|)[pages[j].number];
            && (level in names <==> level != ChunkUnits.Topic && LatestName(pages, j + 1, level).Some?)
            && (level in names ==> LatestName(pages, j + 1, level) == Some(names[level]))
  {
    PerPageAt(pages, |pages|, j);
    PagesTrack(pages, j + 1, level);
    MarksFacts(pages, j + 1, level);
  }

  /** The name stored for a page is that of the one range of its level that contains the page;
      where no name is stored, no range contains it. */
  lemma {:induction false} ActiveIsRange(pages: seq<Page>, j: nat, level: Level)
    requires PagesIncrease(pages) && j < |pages| && level != ChunkUnits.Topic
    requires pages[j].number in PerPage(pages, |pages|)
    ensures var r, names := OfLevel(Detected(pages), level), PerPage(pages, |pages|)[pages[j].number];
            && CountContaining(r, pages[j].number) == (if level in names then 1 else 0)
            && forall k :: 0 <= k < |r| && Contains(r[k], pages[j].number) ==>
                 level in names && r[k].name == names[level]
  {
    ActiveIsLatest(pages, j, level);
    var i := RangeOfPage(pages, j, level);
    CountOne(OfLevel(Detected(pages), level), pages[j].number, i);
  }

  /** A section of the level starts on the page. */
  predicate MarkedOn(marks: seq<Mark>, number: nat) {
    exists i :: 0 <= i < |marks| && marks[i].page == number
  }

  lemma {:induction false} MarkedKeeps(marks: seq<Mark>, number: nat, name: string, q: nat)
    ensures MarkedOn(Marked(marks, number, name), q) <==> q == number || MarkedOn(marks, q)
  {
    var after := Marked(marks, number, name);
    assert after[|after| - 1].page == number;
    if MarkedOn(marks, q) {
      var i :| 0 <= i < |marks| && marks[i].page == q;
      assert after[i].page == q;
    }
  }

  lemma {:induction false} MarksInOn(marks: seq<Mark>, page: Page, n: nat, level: Level, q: nat)
    requires n <= |page.headings|
    ensures MarkedOn(MarksIn(marks, page, n, level), q)
            <==> MarkedOn(marks, q) || (q == page.number && HasHeading(page, n, level))
  {
    hide MarkedOn;
    if n > 0 {
      MarksInOn(marks, page, n - 1, level, q);
      MarkedKeeps(MarksIn(marks, page, n - 1, level), page.number, page.headings[n - 1].name, q);
    }
  }

  lemma {:induction false} MarksOn(pages: seq<Page>, n: nat, level: Level, j: nat)
    requires PagesIncrease(pages) && j < |pages| && n <= |pages|
    ensures MarkedOn(Marks(pages, n, level), pages[j].number)
            <==> j < n && HasHeading(pages[j], |pages[j].headings|, level)
  {
    hide MarkedOn;
    if n == 0 {
      assert Marks(pages, 0, level) == [];
      NoMarks(pages[j].number);
    } else {
      MarksOn(pages, n - 1, level, j);
      MarksInOn(Marks(pages, n - 1, level), pages[n - 1], |pages[n - 1].headings|, level, pages[j].number);
    }
  }

  lemma {:induction false} NoMarks(q: nat)
    ensures !MarkedOn([], q)
  {
  }

  /** A range of the level starts on the page. */
  predicate StartsOn(r: seq<Structure>, number: nat) {
    exists k :: 0 <= k < |r| && r[k].pageStart == number
  }

  /** Ranges start exactly on the pages with a heading of their level, and a range that contains a
      page has the name of the latest heading of its level up to that page, at every level. */
  lemma {:induction false} RangesNamed(pages: seq<Page>, j: nat, level: Level)
    requires PagesIncrease(pages) && j < |pages|
    ensures var r := OfLevel(Detected(pages), level);
            && (StartsOn(r, pages[j].number) <==> HasHeading(pages[j], |pages[j].headings|, level))
            && (forall k :: 0 <= k < |r| && Contains(r[k], pages[j].number) ==>
                  LatestName(pages, j + 1, level) == Some(r[k].name))
            && CountContaining(r, pages[j].number) == (if LatestName(pages, j + 1, level).Some? then 1 else 0)
  {
    hide Detected, Marks, LatestName, Closed, MarkedOn, StartsOn, HasHeading;
    var i := RangeOfPage(pages, j, level);
    CountOne(OfLevel(Detected(pages), level), pages[j].number, i);
    MarksOn(pages, |pages|, level, j);
    DetectedOfLevel(pages, level);
    MarksFacts(pages, |pages|, level);
    StartsAreMarks(Marks(pages, |pages|, level), LastPage(pages), level, pages[j].number);
  }

  lemma {:induction false} StartsAreMarks(marks: seq<Mark>, last: nat, level: Level, number: nat)
    requires Ascending(marks, last)
    ensures StartsOn(Ranges(marks, last, level), number) <==> MarkedOn(marks, number)
  {
    var r := Ranges(marks, last, level);
    if marks != [] { RangeAt(marks, last, level, 0); }
    forall k | 0 <= k < |r|
      ensures r[k].pageStart == marks[k].page
    {
      RangeAt(marks, last, level, k);
    }
    if MarkedOn(marks, number) {
      var k :| 0 <= k < |marks| && marks[k].page == number;
      assert r[k].pageStart == number;
    }
  }

  function CountContaining(r: seq<Structure>, number: nat): nat {
    if r == [] then 0 else CountContaining(r[..|r| - 1], number) + (if Contains(Last(r), number) then 1 else 0)
  }

  lemma {:induction false} CountOne(r: seq<Structure>, number: nat, i: int)
    requires forall k :: 0 <= k < |r| ==> (Contains(r[k], number) <==> k == i)
    ensures CountContaining(r, number) == if 0 <= i < |r| then 1 else 0
  {
    if r != [] { CountOne(r[..|r| - 1], number, i); }
  }
}
