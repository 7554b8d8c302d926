/** One run of the extraction runner over a database session. */
module ExtractionRunner {
  import opened Sequences
  import opened Extraction

  /** The database session: committed rows, and rows of the open transaction. `commits` records
      how many rows each commit took. */
  class Session {
    var committed: Table
    var pending: seq<Row>
    ghost var commits: seq<nat>

    constructor (rows: Table)
      ensures committed == rows && pending == [] && commits == []
    {
      committed, pending, commits := rows, [], [];
    }

    /** Adds a row; page numbers are unique within a job. */
    method CreatePage(row: Row)
      requires row.pageNumber !in Numbers(committed + pending)
      modifies this`pending
      ensures pending == old(pending) + [row]
    {
      pending := pending + [row];
    }

    method Commit()
      modifies this
      ensures committed == old(committed) + old(pending) && pending == []
      ensures commits == old(commits) + [|old(pending)|]
    {
      commits := commits + [|pending|];
      committed, pending := committed + pending, [];
    }
  }

  /** The work of one thread: parse a slice, keeping failures as records. */
  method ExtractSlice(numbers: seq<nat>, document: Document) returns (results: seq<(nat, Outcome)>)
    requires PagesOf(numbers, document)
    ensures |results| == |numbers|
    ensures forall i :: 0 <= i < |numbers| ==> results[i] == (numbers[i], OutcomeAt(document, numbers[i]))
  {
    results := [];
    for i := 0 to |numbers|
      invariant |results| == i
      invariant forall j :: 0 <= j < i ==> results[j] == (numbers[j], OutcomeAt(document, numbers[j]))
    {
      results := results + [(numbers[i], OutcomeAt(document, numbers[i]))];
    }
  }

  /** Persists one page result and returns the page it stands for. */
  method PersistResult(session: Session, n: nat, outcome: Outcome) returns (info: PageInfo)
    requires n !in Numbers(session.committed + session.pending)
    modifies session`pending
    ensures session.pending == old(session.pending) + [RowOf(n, outcome)]
    ensures info == InfoOf(n, outcome)
  {
    session.CreatePage(RowOf(n, outcome));
    info := InfoOf(n, outcome);
  }

  /** After `logged`, commits of `size` rows each, `rows` in all. */
  predicate FullBatches(commits: seq<nat>, logged: seq<nat>, size: nat, rows: int) {
    && logged <= commits
    && (forall i :: |logged| <= i < |commits| ==> commits[i] == size)
    && rows == (|commits| - |logged|) * size
  }

  lemma {:induction false} OneMoreBatch(commits: seq<nat>, logged: seq<nat>, size: nat, rows: int)
    requires FullBatches(commits, logged, size, rows)
    ensures FullBatches(commits + [size], logged, size, rows + size)
  {
    var m := |commits| - |logged|;
    assert (m + 1) * size == m * size + size;
  }

  /** The last commit takes what is left. */
  lemma {:induction false} LastBatch(commits: seq<nat>, logged: seq<nat>, size: nat, rows: int, left: nat)
    requires FullBatches(commits, logged, size, rows) && left < size && rows + left >= 0
    ensures logged <= commits + [left]
    ensures InBatches((commits + [left])[|logged|..], rows + left, size)
  {
    var log := (commits + [left])[|logged|..];
    assert log == commits[|logged|..] + [left];
  }

  /** `rows` rows committed `size` at a time, and what is left at the end. */
  predicate InBatches(log: seq<nat>, rows: nat, size: nat) {
    && log != []
    && (forall i :: 0 <= i < |log| - 1 ==> log[i] == size)
    && Last(log) < size
    && rows == (|log| - 1) * size + Last(log)
  }

  /** The first `k` missing pages are persisted: their rows follow those found at the start, the
      last `since` of them uncommitted, fewer than `checkpoint`, and the others committed in full
      batches; `infos` are their pages. */
  ghost predicate Persisted(
    session: Session, infos: seq<PageInfo>, since: nat, checkpoint: nat,
    base: Table, missing: seq<nat>, document: Document, k: nat, logged: seq<nat>)
    reads session
  {
    && PagesOf(missing, document) && k <= |missing|
    && session.committed + session.pending == base + RowsOf(missing, k, document)
    && |session.pending| == since < checkpoint
    && FullBatches(session.commits, logged, checkpoint, k - since)
    && infos == InfosOf(missing, k, document)
  }

  /** One step of the persisting loop: add the row, commit when `checkpoint` rows are open. */
  method PersistStep(
    session: Session, n: nat, outcome: Outcome, before: seq<PageInfo>, sinceBefore: nat, checkpoint: nat,
    ghost base: Table, ghost missing: seq<nat>, ghost document: Document, ghost k: nat, ghost logged: seq<nat>)
    returns (infos: seq<PageInfo>, since: nat)
    requires Consistent(base, document) && missing == MissingPages(base, document)
    requires k < |missing| && n == missing[k] && outcome == OutcomeAt(document, n)
    requires Persisted(session, before, sinceBefore, checkpoint, base, missing, document, k, logged)
    modifies session
    ensures Persisted(session, infos, since, checkpoint, base, missing, document, k + 1, logged)
  {
    hide RowOf, InfoOf, MissingFrom, Consistent, FullBatches;
    ExtendedTable(base, document, k);
    NextIsNew(base, document, k);
    ghost var rows := session.committed + session.pending;
    var info := PersistResult(session, n, outcome);
    assert session.committed + session.pending == rows + [RowOf(n, outcome)];
    infos, since := before + [info], sinceBefore + 1;
    if since >= checkpoint {
      OneMoreBatch(session.commits, logged, checkpoint, k - sinceBefore);
      session.Commit();
      since := 0;
    }
  }

  /** The loop over one finished slice. */
  method PersistSlice(
    session: Session, numbers: seq<nat>, document: Document, before: seq<PageInfo>, sinceBefore: nat,
    checkpoint: nat, ghost base: Table, ghost missing: seq<nat>, ghost from: nat, ghost logged: seq<nat>)
    returns (infos: seq<PageInfo>, since: nat)
    requires Consistent(base, document) && missing == MissingPages(base, document)
    requires from + |numbers| <= |missing|
    requires forall i :: 0 <= i < |numbers| ==> numbers[i] == missing[from + i]
    requires Persisted(session, before, sinceBefore, checkpoint, base, missing, document, from, logged)
    modifies session
    ensures Persisted(session, infos, since, checkpoint, base, missing, document, from + |numbers|, logged)
  {
    hide RowsOf, InfosOf, MissingFrom, Consistent, FullBatches;
    infos, since := before, sinceBefore;
    assert PagesOf(numbers, document) by {
      forall i | 0 <= i < |numbers|
        ensures 1 <= numbers[i] <= |document|
      {
        assert numbers[i] == missing[from + i];
      }
    }
    var results := ExtractSlice(numbers, document);
    for i := 0 to |results|
      invariant Persisted(session, infos, since, checkpoint, base, missing, document, from + i, logged)
    {
      infos, since := PersistStep(session, results[i].0, results[i].1, infos, since, checkpoint,
                                  base, missing, document, from + i, logged);
    }
  }

  /** Slices are consumed in submission order, whatever order the workers finish in. */
  method PersistAll(
    session: Session, slices: seq<seq<nat>>, document: Document, checkpoint: nat,
    ghost base: Table, ghost missing: seq<nat>)
    returns (infos: seq<PageInfo>)
    requires Consistent(base, document) && missing == MissingPages(base, document) && Flatten(slices) == missing
    requires checkpoint > 0 && session.pending == [] && session.committed == base
    modifies session
    ensures infos == InfosOf(missing, |missing|, document)
    ensures session.pending == [] && session.committed == base + RowsOf(missing, |missing|, document)
    ensures old(session.commits) <= session.commits
    ensures InBatches(session.commits[|old(session.commits)|..], |missing|, checkpoint)
  {
    hide RowsOf, InfosOf, MissingFrom, Consistent, FullBatches, InBatches, Flatten;
    ghost var logged := session.commits;
    infos := [];
    var since: nat := 0;
    NothingPersisted(base, missing, document, logged, checkpoint);
    for i := 0 to |slices|
      invariant Persisted(session, infos, since, checkpoint, base, missing, document, PagesBefore(slices, i), logged)
    {
      SlicePosition(slices, i);
      infos, since := PersistSlice(session, slices[i], document, infos, since, checkpoint,
                                   base, missing, PagesBefore(slices, i), logged);
    }
    FlattenPrefix(slices, |slices|);
    assert slices[..|slices|] == slices;
    LastBatch(session.commits, logged, checkpoint, |missing| - since, since);
    session.Commit();
  }

  lemma {:induction false} NothingPersisted(
    base: Table, missing: seq<nat>, document: Document, logged: seq<nat>, checkpoint: nat)
    requires PagesOf(missing, document)
    ensures RowsOf(missing, 0, document) == [] && InfosOf(missing, 0, document) == []
    ensures FullBatches(logged, logged, checkpoint, 0)
  {
  }

  /** New pages by number. */
  method IndexPages(missing: seq<nat>, infos: seq<PageInfo>, ghost document: Document)
    returns (byNumber: map<nat, PageInfo>)
    requires PagesOf(missing, document) && infos == InfosOf(missing, |missing|, document)
    ensures forall n :: n in byNumber <==> n in missing
    ensures forall n :: n in byNumber ==> 1 <= n <= |document| && byNumber[n] == InfoOf(n, OutcomeAt(document, n))
  {
    byNumber := map[];
    if missing != [] { InfoAt(missing, |missing|, document, 0); }
    for i := 0 to |infos|
      invariant |infos| == |missing|
      invariant forall n :: n in byNumber <==> n in missing[..i]
      invariant forall n :: n in byNumber ==>
                  1 <= n <= |document| && byNumber[n] == InfoOf(n, OutcomeAt(document, n))
    {
      InfoAt(missing, |missing|, document, i);
      SliceAppend(missing, 0, i);
      byNumber := byNumber[infos[i].number := infos[i]];
    }
    assert missing[..|infos|] == missing;
  }

  /** Stored pages fill the numbers the new pages leave free. */
  method FillStored(base: Table, newPages: map<nat, PageInfo>) returns (byNumber: map<nat, PageInfo>)
    ensures forall n :: n in byNumber <==> n in newPages || n in Numbers(base)
    ensures forall n :: n in newPages ==> byNumber[n] == newPages[n]
    ensures forall n :: n in byNumber && n !in newPages ==>
              RowFor(base, n).Some? && byNumber[n] == RowToPageInfo(RowFor(base, n).value)
  {
    byNumber := newPages;
    for i := 0 to |base|
      invariant forall n :: n in byNumber <==> n in newPages || n in Numbers(base[..i])
      invariant forall n :: n in newPages ==> byNumber[n] == newPages[n]
      invariant forall n :: n in byNumber && n !in newPages ==>
                  RowFor(base[..i], n).Some? && byNumber[n] == RowToPageInfo(RowFor(base[..i], n).value)
    {
      SliceAppend(base, 0, i);
      NumbersAppend(base[..i], base[i]);
      RowForAppend(base[..i], base[i]);
      if base[i].pageNumber !in byNumber {
        byNumber := byNumber[base[i].pageNumber := RowToPageInfo(base[i])];
      }
    }
    assert base[..|base|] == base;
  }

  lemma {:induction false} RowForAppend(rows: Table, row: Row)
    ensures forall n :: RowFor(rows + [row], n)
                        == if RowFor(rows, n).Some? then RowFor(rows, n)
                           else if row.pageNumber == n then Some(row) else None
    ensures forall n :: RowFor(rows, n).Some? <==> n in Numbers(rows)
  {
    forall n { RowForFacts(rows, n); }
    forall n
      ensures RowFor(rows + [row], n) == if RowFor(rows, n).Some? then RowFor(rows, n)
                                         else if row.pageNumber == n then Some(row) else None
    {
      RowForAppendAt(rows, row, n);
    }
  }

  lemma {:induction false} RowForAppendAt(rows: Table, row: Row, n: nat)
    ensures RowFor(rows + [row], n)
            == if RowFor(rows, n).Some? then RowFor(rows, n)
               else if row.pageNumber == n then Some(row) else None
  {
    if rows == [] {
      assert ([row])[1..] == [];
    } else {
      assert (rows + [row])[1..] == rows[1..] + [row];
      RowForAppendAt(rows[1..], row, n);
    }
  }

  /** The pages in number order. */
  method CollectPages(
    byNumber: map<nat, PageInfo>, document: Document, ghost base: Table) returns (pages: seq<PageInfo>)
    requires forall n :: 1 <= n <= |document| ==> n in byNumber && byNumber[n] == ResultPage(base, n, document)
    ensures pages == Summary(base, document).pages
  {
    pages := [];
    for n: nat := 1 to |document| + 1
      invariant pages == ResultPages(base, n - 1, document)
    {
      pages := pages + [byNumber[n]];
    }
  }

  /** The summary of a resumed run: new pages first, stored pages filled in, by number. */
  method MergePages(base: Table, infos: seq<PageInfo>, document: Document) returns (pages: seq<PageInfo>)
    requires Consistent(base, document)
    requires infos == InfosOf(MissingPages(base, document), |MissingPages(base, document)|, document)
    ensures pages == Summary(base, document).pages
  {
    hide InfoOf, RowToPageInfo, Consistent, InfosOf, RowFor;
    MissingFacts(Numbers(base), 1, |document|);
    var newPages := IndexPages(MissingPages(base, document), infos, document);
    var byNumber := FillStored(base, newPages);
    forall n | 1 <= n <= |document|
      ensures n in byNumber && byNumber[n] == ResultPage(base, n, document)
    {
      RowForFacts(base, n);
    }
    pages := CollectPages(byNumber, document, base);
  }

  /** One run: stored pages are skipped, the missing ones parsed and committed `checkpointPages`
      at a time after a commit of none, and the summary covers the whole book. */
  method Run(session: Session, document: Document, maxWorkers: int, checkpointPages: int)
    returns (extraction: PdfExtraction)
    requires session.pending == [] && Consistent(session.committed, document)
    modifies session
    ensures session.pending == []
    ensures var missing := MissingPages(old(session.committed), document);
            session.committed == old(session.committed) + RowsOf(missing, |missing|, document)
    ensures extraction == Summary(old(session.committed), document)
    ensures old(session.commits) + [0] <= session.commits
    ensures InBatches(session.commits[|old(session.commits)| + 1..],
                      |MissingPages(old(session.committed), document)|,
                      if checkpointPages >= 1 then checkpointPages else 1)
  {
    hide RowsOf, InfosOf, MissingFrom, Consistent, InBatches, Flatten, WorkSlices, ResultPages;
    var workers, checkpoint := Max(1, maxWorkers), Max(1, checkpointPages);
    var base := session.committed;
    WorkSlicesCover(Numbers(base), |document|, workers);
    session.Commit();
    assert session.committed == base;
    var slices := WorkSlices(Numbers(base), |document|, workers);
    var pages := PersistAll(session, slices, document, checkpoint, base, MissingPages(base, document));
    if base != [] {
      pages := MergePages(base, pages, document);
    } else {
      NothingStored(document);
    }
    extraction := PdfExtraction(|document|, pages);
  }
}
