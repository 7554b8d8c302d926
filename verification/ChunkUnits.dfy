/** Classified text units of a book, the headings in force at a unit, and the decision
    whether a sentence runs across a page break. */
module ChunkUnits {
  import opened Sequences
  import opened Text

  datatype Level = Kitab | Bab | Fasl | Topic

  /** A main-region block in reading order; `level` is its heading classification. */
  datatype Block = Block(text: string, level: Option<Level>)

  datatype Page = Page(number: int, blocks: seq<Block>)

  datatype Unit = Unit(
    text: string,
    level: Option<Level>,
    pdfPage: int,
    printedPage: Option<int>,
    endsSentence: bool)
  {
    predicate IsBody() { level == None }

    predicate Valid() {
      text != "" && Stripped(text) && (endsSentence <==> IsFinal(Last(text)))
    }
  }

  // ---------------------------------------------------------------- units of a page

  function PageUnits(blocks: seq<Block>, number: int, printed: Option<int>): seq<Unit> {
    if blocks == [] then []
    else
      var text := Strip(blocks[0].text);
      var rest := PageUnits(blocks[1..], number, printed);
      if text == "" then rest
      else
        var ends := FindFinal(text, 0) < |text| && IsFinal(Last(text));
        [Unit(text, blocks[0].level, number, printed, ends)] + rest
  }

  function PrintedOn(printed: map<int, Option<int>>, number: int): Option<int> {
    if number in printed then printed[number] else None
  }

  /** The units of all pages; `printed` is the printed-page mapping. */
  function DocumentUnits(pages: seq<Page>, printed: map<int, Option<int>>): seq<Unit> {
    if pages == [] then []
    else PageUnits(pages[0].blocks, pages[0].number, PrintedOn(printed, pages[0].number))
         + DocumentUnits(pages[1..], printed)
  }

  predicate PagesIncrease(pages: seq<Page>) {
    forall i, j :: 0 <= i < j < |pages| ==> pages[i].number < pages[j].number
  }

  predicate AllValid(units: seq<Unit>) {
    forall i :: 0 <= i < |units| ==> units[i].Valid()
  }

  predicate PagesOrdered(units: seq<Unit>) {
    forall i, j :: 0 <= i < j < |units| ==> units[i].pdfPage <= units[j].pdfPage
  }

  lemma {:induction false} PageUnitsFacts(blocks: seq<Block>, number: int, printed: Option<int>)
    ensures AllValid(PageUnits(blocks, number, printed))
    ensures forall u :: u in PageUnits(blocks, number, printed) ==> u.pdfPage == number
  {
    if blocks != [] {
      PageUnitsFacts(blocks[1..], number, printed);
      var _ := StripFacts(blocks[0].text);
    }
  }

  lemma {:induction false} DocumentUnitsFacts(pages: seq<Page>, printed: map<int, Option<int>>)
    ensures AllValid(DocumentUnits(pages, printed))
    ensures forall u :: u in DocumentUnits(pages, printed) ==>
              exists i :: 0 <= i < |pages| && pages[i].number == u.pdfPage
    ensures PagesIncrease(pages) ==> PagesOrdered(DocumentUnits(pages, printed))
  {
    if pages != [] {
      var head := PageUnits(pages[0].blocks, pages[0].number, PrintedOn(printed, pages[0].number));
      PageUnitsFacts(pages[0].blocks, pages[0].number, PrintedOn(printed, pages[0].number));
      var rest := DocumentUnits(pages[1..], printed);
      DocumentUnitsFacts(pages[1..], printed);
      forall u | u in rest
        ensures exists i :: 0 < i < |pages| && pages[i].number == u.pdfPage
      {
        var i :| 0 <= i < |pages[1..]| && pages[1..][i].number == u.pdfPage;
        assert pages[i + 1].number == u.pdfPage;
      }
      if PagesIncrease(pages) {
        var all := head + rest;
        forall i, j | 0 <= i < j < |all|
          ensures all[i].pdfPage <= all[j].pdfPage
        {
          if j < |head| {
            assert head[i] in head && head[j] in head;
          } else if i < |head| {
            assert head[i] in head && rest[j - |head|] in rest;
          }
        }
      }
    }
  }

  /** The text of the body blocks, and of the body units. */
  function BlocksBody(blocks: seq<Block>): string {
    if blocks == [] then ""
    else (if blocks[0].level == None then blocks[0].text else "") + BlocksBody(blocks[1..])
  }

  function PagesBody(pages: seq<Page>): string {
    if pages == [] then "" else BlocksBody(pages[0].blocks) + PagesBody(pages[1..])
  }

  function UnitsBody(units: seq<Unit>): string {
    if units == [] then ""
    else (if units[0].IsBody() then units[0].text else "") + UnitsBody(units[1..])
  }

  lemma {:induction false} UnitsBodyConcat(a: seq<Unit>, b: seq<Unit>)
    ensures UnitsBody(a + b) == UnitsBody(a) + UnitsBody(b)
  {
    if a == [] {
      assert a + b == b;
    } else {
      assert (a + b)[1..] == a[1..] + b;
      UnitsBodyConcat(a[1..], b);
    }
  }

  lemma {:induction false} PageUnitsConserve(blocks: seq<Block>, number: int, printed: Option<int>)
    ensures Visible(UnitsBody(PageUnits(blocks, number, printed))) == Visible(BlocksBody(blocks))
  {
    if blocks != [] {
      var b, rest := blocks[0], PageUnits(blocks[1..], number, printed);
      PageUnitsConserve(blocks[1..], number, printed);
      var _ := StripFacts(b.text);
      var kept := if b.level == None then b.text else "";
      VisibleConcat(kept, BlocksBody(blocks[1..]));
      if Strip(b.text) != "" {
        var units := PageUnits(blocks, number, printed);
        assert units[1..] == rest;
        VisibleConcat(if b.level == None then Strip(b.text) else "", UnitsBody(rest));
      }
    }
  }

  /** Cutting pages into units loses no visible character of the body text. */
  lemma {:induction false} DocumentUnitsConserve(pages: seq<Page>, printed: map<int, Option<int>>)
    ensures Visible(UnitsBody(DocumentUnits(pages, printed))) == Visible(PagesBody(pages))
  {
    if pages != [] {
      var printedHere := PrintedOn(printed, pages[0].number);
      var head := PageUnits(pages[0].blocks, pages[0].number, printedHere);
      var rest := DocumentUnits(pages[1..], printed);
      PageUnitsConserve(pages[0].blocks, pages[0].number, printedHere);
      DocumentUnitsConserve(pages[1..], printed);
      UnitsBodyConcat(head, rest);
      VisibleConcat(UnitsBody(head), UnitsBody(rest));
      VisibleConcat(BlocksBody(pages[0].blocks), PagesBody(pages[1..]));
    }
  }

  // ---------------------------------------------------------------- where units come from

  /** A block and the number of its page. */
  datatype Place = Place(block: Block, number: int)

  function PlacesOn(blocks: seq<Block>, number: int): (r: seq<Place>)
    ensures |r| == |blocks|
  {
    seq(|blocks|, i requires 0 <= i < |blocks| => Place(blocks[i], number))
  }

  /** All blocks of the book, page after page. */
  function AllPlaces(pages: seq<Page>): seq<Place> {
    if pages == [] then [] else PlacesOn(pages[0].blocks, pages[0].number) + AllPlaces(pages[1..])
  }

  /** The unit made of a block: its text stripped, its level, its page and that page's printed
      number. */
  predicate MadeOf(u: Unit, place: Place, printed: map<int, Option<int>>) {
    && u.text == Strip(place.block.text) && u.text != ""
    && u.level == place.block.level && u.pdfPage == place.number
    && u.printedPage == (if place.number in printed then printed[place.number] else None)
    && (u.endsSentence <==> IsFinal(Last(u.text)))
  }

  predicate EachMade(units: seq<Unit>, places: seq<Place>, printed: map<int, Option<int>>, at: seq<nat>) {
    |at| == |units|
    && forall i :: 0 <= i < |at| ==> at[i] < |places| && MadeOf(units[i], places[at[i]], printed)
  }

  predicate OthersBlank(places: seq<Place>, at: seq<nat>) {
    forall k :: 0 <= k < |places| && k !in at ==> Strip(places[k].block.text) == ""
  }

  /** The units are made of the blocks at `at`, in order, and the other blocks are blank. */
  predicate MadeFrom(units: seq<Unit>, places: seq<Place>, printed: map<int, Option<int>>, at: seq<nat>) {
    EachMade(units, places, printed, at) && StrictlyIncreasing(at) && OthersBlank(places, at)
  }

  function Shifted(at: seq<nat>, offset: nat): (r: seq<nat>)
    ensures |r| == |at| && forall i :: 0 <= i < |at| ==> r[i] == at[i] + offset
  {
    seq(|at|, i requires 0 <= i < |at| => at[i] + offset)
  }

  lemma {:induction false} BlankConcat(before: seq<Place>, at: seq<nat>, more: seq<Place>, ats: seq<nat>)
    requires OthersBlank(before, at) && OthersBlank(more, ats)
    ensures OthersBlank(before + more, at + Shifted(ats, |before|))
  {
    hide Strip;
    var all := at + Shifted(ats, |before|);
    assert forall i :: 0 <= i < |at| ==> all[i] == at[i];
    assert forall i :: 0 <= i < |ats| ==> all[|at| + i] == ats[i] + |before|;
  }

  lemma {:induction false} EachConcat(
    a: seq<Unit>, before: seq<Place>, at: seq<nat>, b: seq<Unit>, more: seq<Place>, ats: seq<nat>,
    printed: map<int, Option<int>>)
    requires EachMade(a, before, printed, at) && EachMade(b, more, printed, ats)
    ensures EachMade(a + b, before + more, printed, at + Shifted(ats, |before|))
  {
    hide MadeOf;
  }

  lemma {:induction false} MadeConcat(
    a: seq<Unit>, before: seq<Place>, at: seq<nat>, b: seq<Unit>, more: seq<Place>, ats: seq<nat>,
    printed: map<int, Option<int>>)
    requires MadeFrom(a, before, printed, at) && MadeFrom(b, more, printed, ats)
    ensures MadeFrom(a + b, before + more, printed, at + Shifted(ats, |before|))
  {
    hide MadeOf, OthersBlank;
    EachConcat(a, before, at, b, more, ats, printed);
    BlankConcat(before, at, more, ats);
  }

  lemma {:induction false} OneBlockMade(block: Block, number: int, printed: map<int, Option<int>>)
    ensures MadeFrom(PageUnits([block], number, PrintedOn(printed, number)), PlacesOn([block], number), printed,
                     if Strip(block.text) == "" then [] else [0])
  {
    hide Strip, IsFinal;
    FinalAtEnd(Strip(block.text));
    assert [block][1..] == [];
  }

  lemma {:induction false} FirstUnits(blocks: seq<Block>, number: int, printed: Option<int>)
    requires blocks != []
    ensures PageUnits(blocks, number, printed)
            == PageUnits([blocks[0]], number, printed) + PageUnits(blocks[1..], number, printed)
    ensures PlacesOn(blocks, number) == PlacesOn([blocks[0]], number) + PlacesOn(blocks[1..], number)
  {
    hide Strip, IsFinal;
    assert [blocks[0]][1..] == [];
  }

  lemma {:induction false} PageMade(blocks: seq<Block>, number: int, printed: map<int, Option<int>>)
    returns (at: seq<nat>)
    ensures MadeFrom(PageUnits(blocks, number, PrintedOn(printed, number)), PlacesOn(blocks, number), printed, at)
  {
    hide MadeFrom, Strip;
    if blocks == [] {
      at := [];
      NothingMade(printed);
      assert PlacesOn(blocks, number) == [];
    } else {
      var rest := PageMade(blocks[1..], number, printed);
      var own: seq<nat> := if Strip(blocks[0].text) == "" then [] else [0];
      OneBlockMade(blocks[0], number, printed);
      FirstUnits(blocks, number, PrintedOn(printed, number));
      at := own + Shifted(rest, 1);
      MadeConcat(PageUnits([blocks[0]], number, PrintedOn(printed, number)), PlacesOn([blocks[0]], number), own,
                 PageUnits(blocks[1..], number, PrintedOn(printed, number)), PlacesOn(blocks[1..], number), rest,
                 printed);
    }
  }

  lemma {:induction false} FinalAtEnd(text: string)
    ensures text != "" && IsFinal(Last(text)) ==> FindFinal(text, 0) < |text|
  {
    hide IsFinal;
  }

  /** Every unit is made of one block, in book order, and every block that is not blank makes
      one. */
  lemma {:induction false} UnitsOfBlocks(pages: seq<Page>, printed: map<int, Option<int>>) returns (at: seq<nat>)
    ensures MadeFrom(DocumentUnits(pages, printed), AllPlaces(pages), printed, at)
  {
    hide MadeFrom;
    if pages == [] {
      at := [];
      assert MadeFrom([], [], printed, at) by { NothingMade(printed); }
    } else {
      var first := PageMade(pages[0].blocks, pages[0].number, printed);
      var rest := UnitsOfBlocks(pages[1..], printed);
      at := first + Shifted(rest, |pages[0].blocks|);
      MadeConcat(PageUnits(pages[0].blocks, pages[0].number, PrintedOn(printed, pages[0].number)),
                 PlacesOn(pages[0].blocks, pages[0].number), first,
                 DocumentUnits(pages[1..], printed), AllPlaces(pages[1..]), rest, printed);
    }
  }

  lemma {:induction false} NothingMade(printed: map<int, Option<int>>)
    ensures MadeFrom([], [], printed, [])
  {
  }

  // ---------------------------------------------------------------- split levels

  const CONTEXT_KEYS: seq<Level> := [Kitab, Bab, Fasl, Topic]

  function KeyIndex(level: Level): nat {
    match level
    case Kitab => 0
    case Bab => 1
    case Fasl => 2
    case Topic => 3
  }

  predicate Present(units: seq<Unit>, level: Level) {
    exists i :: 0 <= i < |units| && units[i].level == Some(level)
  }

  /** Bab if the book has one, else Fasl, else Kitab. */
  function PrimaryLevel(units: seq<Unit>): Option<Level> {
    if Present(units, Bab) then Some(Bab)
    else if Present(units, Fasl) then Some(Fasl)
    else if Present(units, Kitab) then Some(Kitab)
    else None
  }

  /** The primary level and everything coarser. */
  function BoundaryLevels(primary: Option<Level>): set<Level> {
    match primary
    case None => {}
    case Some(level) => set k: Level | KeyIndex(k) <= KeyIndex(level)
  }

  /** The levels finer than the primary one, coarsest first. */
  function SubLevels(primary: Option<Level>): seq<Level> {
    match primary
    case None => []
    case Some(level) => CONTEXT_KEYS[KeyIndex(level) + 1..]
  }

  /** The primary level is Bab when the book has one, else Fasl, else Kitab; it and the coarser
      levels always split, and the finer ones are tried in order on oversized ranges. */
  lemma {:induction false} LevelsDivided(units: seq<Unit>)
    ensures var primary := PrimaryLevel(units);
            && (Present(units, Bab) ==> primary == Some(Bab))
            && (!Present(units, Bab) && Present(units, Fasl) ==> primary == Some(Fasl))
            && (!Present(units, Bab) && !Present(units, Fasl) && Present(units, Kitab) ==> primary == Some(Kitab))
    ensures BoundaryLevels(None) == {} && SubLevels(None) == []
    ensures BoundaryLevels(Some(Kitab)) == {Kitab} && SubLevels(Some(Kitab)) == [Bab, Fasl, Topic]
    ensures BoundaryLevels(Some(Bab)) == {Kitab, Bab} && SubLevels(Some(Bab)) == [Fasl, Topic]
    ensures BoundaryLevels(Some(Fasl)) == {Kitab, Bab, Fasl} && SubLevels(Some(Fasl)) == [Topic]
  {
  }

  // ---------------------------------------------------------------- page breaks

  /** The scan for the last unit of `page`: it stops at the first later page. */
  function LastOnPage(units: seq<Unit>, page: int, i: nat, last: Option<Unit>): Option<Unit>
    requires i <= |units|
    decreases |units| - i
  {
    if i == |units| then last
    else if units[i].pdfPage == page then LastOnPage(units, page, i + 1, Some(units[i]))
    else if last.Some? && units[i].pdfPage > page then last
    else LastOnPage(units, page, i + 1, last)
  }

  predicate PageContinues(units: seq<Unit>, page: int) {
    match LastOnPage(units, page, 0, None)
    case None => false
    case Some(unit) => unit.IsBody() && !unit.endsSentence
  }

  method PageContinuesLoop(units: seq<Unit>, page: int) returns (r: bool)
    ensures r == PageContinues(units, page)
  {
    var last: Option<Unit> := None;
    var i := 0;
    while i < |units|
      invariant i <= |units|
      invariant LastOnPage(units, page, i, last) == LastOnPage(units, page, 0, None)
    {
      if units[i].pdfPage == page {
        last := Some(units[i]);
      } else if last.Some? && units[i].pdfPage > page {
        break;
      }
      i := i + 1;
    }
    if last == None || !last.value.IsBody() { return false; }
    r := !last.value.endsSentence;
  }

  lemma {:induction false} ScanReachesPageEnd(units: seq<Unit>, i: nat, j: nat, last: Option<Unit>)
    requires PagesOrdered(units)
    requires j < i < |units| && units[i - 1].pdfPage != units[i].pdfPage
    ensures LastOnPage(units, units[i - 1].pdfPage, j, last) == Some(units[i - 1])
    decreases i - j
  {
    var page := units[i - 1].pdfPage;
    assert page < units[i].pdfPage;
    if j < i - 1 {
      assert units[j].pdfPage <= page;
      ScanReachesPageEnd(units, i, j + 1, if units[j].pdfPage == page then Some(units[j]) else last);
    }
  }

  /** On ordered pages the whole-list scan agrees with the unit next to the break. */
  lemma {:induction false} AdjacentUnitDecides(units: seq<Unit>, i: nat)
    requires PagesOrdered(units)
    requires 0 < i < |units| && units[i - 1].pdfPage != units[i].pdfPage
    ensures PageContinues(units, units[i - 1].pdfPage)
            <==> units[i - 1].IsBody() && !units[i - 1].endsSentence
  {
    ScanReachesPageEnd(units, i, 0, None);
  }

  // ---------------------------------------------------------------- boundary starts

  /** A chunk must begin at `i`: a boundary heading, or a page break no sentence crosses. */
  predicate IsBoundary(units: seq<Unit>, levels: set<Level>, i: int) {
    && 0 <= i < |units|
    && ((units[i].level.Some? && units[i].level.value in levels)
        || (i > 0 && units[i].pdfPage != units[i - 1].pdfPage
            && !PageContinues(units, units[i - 1].pdfPage)))
  }

  /** With pages in order: a boundary is a heading of a boundary level, or a unit on another page
      than the one before it when that one is a heading or ends its sentence. */
  lemma {:induction false} BoundaryExactly(units: seq<Unit>, levels: set<Level>, i: nat)
    requires PagesOrdered(units) && i < |units|
    ensures IsBoundary(units, levels, i)
            <==> (units[i].level.Some? && units[i].level.value in levels)
                 || (i > 0 && units[i].pdfPage != units[i - 1].pdfPage
                     && (units[i - 1].level.Some? || units[i - 1].endsSentence))
  {
    hide PageContinues;
    if i > 0 && units[i].pdfPage != units[i - 1].pdfPage { AdjacentUnitDecides(units, i); }
  }

  function BoundaryStarts(units: seq<Unit>, levels: set<Level>, n: nat): (r: seq<int>)
    requires n <= |units|
    ensures StrictlyIncreasing(r)
    ensures forall k :: 0 <= k < |r| ==> 0 <= r[k] < n
  {
    if n == 0 then []
    else BoundaryStarts(units, levels, n - 1) + (if IsBoundary(units, levels, n - 1) then [n - 1] else [])
  }

  /** The starts are exactly the boundaries. */
  lemma {:induction false} StartsAreBoundaries(units: seq<Unit>, levels: set<Level>, n: nat, i: int)
    requires n <= |units|
    ensures i in BoundaryStarts(units, levels, n) <==> i < n && IsBoundary(units, levels, i)
  {
    hide IsBoundary;
    if n > 0 { StartsAreBoundaries(units, levels, n - 1, i); }
    assert IsBoundary(units, levels, i) ==> 0 <= i by { BoundaryInRange(units, levels, i); }
  }

  lemma {:induction false} BoundaryInRange(units: seq<Unit>, levels: set<Level>, i: int)
    ensures IsBoundary(units, levels, i) ==> 0 <= i < |units|
  {
  }

  method BoundaryStartsLoop(units: seq<Unit>, levels: set<Level>) returns (r: seq<int>)
    requires units != []
    ensures r == BoundaryStarts(units, levels, |units|)
  {
    var starts: seq<int> := [];
    var currentPage := units[0].pdfPage;
    for index := 0 to |units|
      invariant currentPage == units[if index == 0 then 0 else index - 1].pdfPage
      invariant forall i :: i in starts <==> i < index && IsBoundary(units, levels, i)
    {
      var unit := units[index];
      if unit.level.Some? && unit.level.value in levels {
        starts := starts + [index];
      }
      if unit.pdfPage != currentPage {
        var continues := PageContinuesLoop(units, currentPage);
        if !continues { starts := starts + [index]; }
        currentPage := unit.pdfPage;
      }
    }
    r := SortedSet(starts);
    forall i { StartsAreBoundaries(units, levels, |units|, i); }
    IncreasingListingUnique(r, BoundaryStarts(units, levels, |units|));
  }

  // ---------------------------------------------------------------- headings in force

  /** The latest heading of `level` among the first `n` units. */
  function LatestHeading(units: seq<Unit>, level: Level, n: nat): Option<string>
    requires n <= |units|
  {
    if n == 0 then None
    else if units[n - 1].level == Some(level) then Some(units[n - 1].text)
    else LatestHeading(units, level, n - 1)
  }

  type Context = c: map<Level, Option<string>> | c.Keys == {Kitab, Bab, Fasl, Topic}
    witness map[Kitab := None, Bab := None, Fasl := None, Topic := None]

  /** The headings in force when unit `start` is emitted. */
  function ContextAt(units: seq<Unit>, start: nat): Context
    requires start < |units|
  {
    map[Kitab := LatestHeading(units, Kitab, start + 1), Bab := LatestHeading(units, Bab, start + 1),
        Fasl := LatestHeading(units, Fasl, start + 1), Topic := LatestHeading(units, Topic, start + 1)]
  }

  method ContextAtLoop(units: seq<Unit>, start: nat) returns (context: Context)
    requires start < |units|
    ensures context == ContextAt(units, start)
  {
    context := map[Kitab := None, Bab := None, Fasl := None, Topic := None];
    for i := 0 to start + 1
      invariant forall level :: level in context ==> context[level] == LatestHeading(units, level, i)
    {
      var unit := units[i];
      if unit.level.Some? && unit.level.value in context {
        context := context[unit.level.value := Some(unit.text)];
      }
    }
  }

  /** Without a heading of `level` in between, the heading in force does not change. */
  lemma {:induction false} HeadingPersists(units: seq<Unit>, level: Level, a: nat, b: nat)
    requires a <= b <= |units|
    requires forall i :: a <= i < b ==> units[i].level != Some(level)
    ensures LatestHeading(units, level, b) == LatestHeading(units, level, a)
    decreases b - a
  {
    if a < b { HeadingPersists(units, level, a, b - 1); }
  }
}
