/** The extraction runner as a protocol: worker threads parse slices in any interleaving, the
    calling thread persists in submission order and commits in batches, and a crash at any
    point drops the open transaction. */
module ExtractionProtocol {
  import opened Sequences
  import opened Extraction

  /** `parsed[j]` pages of slice `j` are parsed; the calling thread stands at page `offset`
      of slice `at`, with `since` rows added after the last commit. */
  datatype Phase =
    | Idle
    | Running(
        base: Table, slices: seq<seq<nat>>, checkpoint: nat,
        parsed: seq<nat>, at: nat, offset: nat, since: nat, infos: seq<PageInfo>)
    | Done(found: Table, extraction: PdfExtraction)

  datatype State = State(committed: Table, pending: seq<Row>, phase: Phase)

  datatype Step =
    | Start(maxWorkers: int, checkpointPages: int)
    | Parse(worker: nat)
    | Persist
    | Checkpoint
    | NextFuture
    | Finish
    | Crash

  function Zeros(n: nat): seq<nat> { seq(n, _ => 0) }

  /** The page a worker parses next. */
  predicate CanParse(s: State, worker: nat) {
    s.phase.Running? && worker < |s.phase.slices| == |s.phase.parsed|
    && s.phase.parsed[worker] < |s.phase.slices[worker]|
  }

  function ParsedPage(s: State, worker: nat): nat
    requires CanParse(s, worker)
  {
    s.phase.slices[worker][s.phase.parsed[worker]]
  }

  /** The calling thread has the result of the current future. */
  predicate HasResult(r: Phase) {
    r.Running? && r.since < r.checkpoint && r.at < |r.slices| == |r.parsed|
    && r.parsed[r.at] == |r.slices[r.at]| && r.offset <= |r.slices[r.at]|
  }

  ghost predicate Next(s: State, step: Step, s': State, document: Document) {
    match step
    case Start(maxWorkers, checkpointPages) =>
      && !s.phase.Running?
      && var slices := WorkSlices(Numbers(s.committed), |document|, Max(1, maxWorkers));
         s' == State(s.committed, [], Running(
           s.committed, slices, Max(1, checkpointPages), Zeros(|slices|), 0, 0, 0, []))
    case Parse(worker) =>
      && CanParse(s, worker)
      && s' == s.(phase := s.phase.(parsed := s.phase.parsed[worker := s.phase.parsed[worker] + 1]))
    case Persist =>
      && HasResult(s.phase) && s.phase.offset < |s.phase.slices[s.phase.at]|
      && var n := s.phase.slices[s.phase.at][s.phase.offset];
         1 <= n <= |document|
         && s' == State(
           s.committed, s.pending + [RowOf(n, OutcomeAt(document, n))],
           s.phase.(offset := s.phase.offset + 1, since := s.phase.since + 1,
                    infos := s.phase.infos + [InfoOf(n, OutcomeAt(document, n))]))
    case Checkpoint =>
      && s.phase.Running? && s.phase.since >= s.phase.checkpoint
      && s' == State(s.committed + s.pending, [], s.phase.(since := 0))
    case NextFuture =>
      && HasResult(s.phase) && s.phase.offset == |s.phase.slices[s.phase.at]|
      && s' == s.(phase := s.phase.(at := s.phase.at + 1, offset := 0))
    case Finish =>
      && s.phase.Running? && s.phase.since < s.phase.checkpoint && s.phase.at == |s.phase.slices|
      && s' == State(s.committed + s.pending, [], Done(s.phase.base, PdfExtraction(
           |document|, ReturnedPages(s.phase.base, s.phase.infos, |document|))))
    case Crash =>
      s' == State(s.committed, [], Idle)
  }

  // ---------------------------------------------------------------- invariant

  /** How many missing pages are persisted. */
  function Position(r: Phase): nat
    requires r.Running? && r.at <= |r.slices|
  {
    PagesBefore(r.slices, r.at) + r.offset
  }

  ghost predicate WorkersSane(r: Phase)
    requires r.Running?
  {
    && |r.parsed| == |r.slices| && r.at <= |r.slices|
    && (forall j :: 0 <= j < |r.slices| ==> r.parsed[j] <= |r.slices[j]|)
    && (forall j :: 0 <= j < r.at ==> r.parsed[j] == |r.slices[j]|)
    && (r.offset > 0 ==> r.at < |r.slices| && r.parsed[r.at] == |r.slices[r.at]| && r.offset <= |r.slices[r.at]|)
  }

  /** What the calling thread has stored and collected so far. */
  ghost predicate RowsSane(s: State, document: Document)
    requires s.phase.Running? && s.phase.at <= |s.phase.slices|
  {
    var r, missing := s.phase, MissingPages(s.phase.base, document);
    && Position(r) <= |missing|
    && s.committed + s.pending == r.base + RowsOf(missing, Position(r), document)
    && r.infos == InfosOf(missing, Position(r), document)
    && r.base <= s.committed
    && |s.pending| == r.since <= r.checkpoint && r.checkpoint > 0
  }

  ghost predicate Inv(s: State, document: Document) {
    && Consistent(s.committed, document)
    && match s.phase
       case Idle => s.pending == []
       case Running(base, slices, _, _, _, _, _, _) =>
         && Consistent(base, document) && Flatten(slices) == MissingPages(base, document)
         && WorkersSane(s.phase) && RowsSane(s, document)
       case Done(found, extraction) =>
         && s.pending == []
         && Consistent(found, document)
         && s.committed == found + RowsOf(MissingPages(found, document), |MissingPages(found, document)|, document)
         && extraction == Summary(found, document)
  }

  lemma {:induction false} StartKeepsInv(s: State, s': State, step: Step, document: Document)
    requires Inv(s, document) && step.Start? && Next(s, step, s', document)
    ensures Inv(s', document)
  {
    WorkSlicesCover(Numbers(s.committed), |document|, Max(1, step.maxWorkers));
    var base := s.committed;
    assert base + RowsOf(MissingPages(base, document), 0, document) == base;
    assert s'.committed + s'.pending == base;
  }

  lemma {:induction false} ParseKeepsInv(s: State, s': State, step: Step, document: Document)
    requires Inv(s, document) && step.Parse? && Next(s, step, s', document)
    ensures Inv(s', document)
  {
    hide MissingFrom, RowsOf, InfosOf, Consistent;
  }

  lemma {:induction false} NextFutureKeepsInv(s: State, s': State, step: Step, document: Document)
    requires Inv(s, document) && step.NextFuture? && Next(s, step, s', document)
    ensures Inv(s', document)
  {
    hide MissingFrom, RowsOf, InfosOf, Consistent;
  }

  /** The page about to be persisted is the next missing one. */
  lemma {:induction false} PersistsNextMissing(s: State, document: Document)
    requires Inv(s, document) && HasResult(s.phase) && s.phase.offset < |s.phase.slices[s.phase.at]|
    ensures var missing := MissingPages(s.phase.base, document);
            var n := s.phase.slices[s.phase.at][s.phase.offset];
            && Position(s.phase) < |missing| && n == missing[Position(s.phase)] && 1 <= n <= |document|
  {
    SlicePosition(s.phase.slices, s.phase.at);
  }

  lemma {:induction false} PersistKeepsInv(s: State, s': State, step: Step, document: Document)
    requires Inv(s, document) && step.Persist? && Next(s, step, s', document)
    ensures Inv(s', document)
  {
    PersistsNextMissing(s, document);
    var missing, k := MissingPages(s.phase.base, document), Position(s.phase);
    var row := RowOf(missing[k], OutcomeAt(document, missing[k]));
    assert s'.committed + s'.pending == (s.committed + s.pending) + [row];
  }

  lemma {:induction false} CheckpointKeepsInv(s: State, s': State, step: Step, document: Document)
    requires Inv(s, document) && step.Checkpoint? && Next(s, step, s', document)
    ensures Inv(s', document)
  {
    hide MissingFrom, RowOf, InfoOf, RowsOf, InfosOf, Consistent, Elements;
    ExtendedTable(s.phase.base, document, Position(s.phase));
    assert s'.committed + s'.pending == s.committed + s.pending;
  }

  /** When no future is left, all missing pages are persisted. */
  lemma {:induction false} AllPersisted(s: State, document: Document)
    requires Inv(s, document) && s.phase.Running? && s.phase.at == |s.phase.slices|
    ensures Position(s.phase) == |MissingPages(s.phase.base, document)|
  {
    FlattenPrefix(s.phase.slices, |s.phase.slices|);
    assert s.phase.slices[..|s.phase.slices|] == s.phase.slices;
  }

  lemma {:induction false} FinishKeepsInv(s: State, s': State, step: Step, document: Document)
    requires Inv(s, document) && step.Finish? && Next(s, step, s', document)
    ensures Inv(s', document)
  {
    AllPersisted(s, document);
    ExtendedTable(s.phase.base, document, Position(s.phase));
    ReturnedIsSummary(s.phase.base, document);
  }

  /** Every step keeps the invariant. */
  lemma {:induction false} InvKept(s: State, step: Step, s': State, document: Document)
    requires Inv(s, document) && Next(s, step, s', document)
    ensures Inv(s', document)
  {
    match step
    case Start(_, _) => StartKeepsInv(s, s', step, document);
    case Parse(_) => ParseKeepsInv(s, s', step, document);
    case Persist => PersistKeepsInv(s, s', step, document);
    case Checkpoint => CheckpointKeepsInv(s, s', step, document);
    case NextFuture => NextFutureKeepsInv(s, s', step, document);
    case Finish => FinishKeepsInv(s, s', step, document);
    case Crash =>
  }

  // ---------------------------------------------------------------- whole histories

  /** A history of one job: any number of runs, interleavings and crashes. */
  ghost predicate History(states: seq<State>, steps: seq<Step>, document: Document) {
    && |states| == |steps| + 1
    && states[0] == State([], [], Idle)
    && forall i :: 0 <= i < |steps| ==> Next(states[i], steps[i], states[i + 1], document)
  }

  lemma {:induction false} HistoryInv(states: seq<State>, steps: seq<Step>, document: Document, i: nat)
    requires History(states, steps, document) && i < |states|
    ensures Inv(states[i], document)
  {
    if i > 0 {
      HistoryInv(states, steps, document, i - 1);
      InvKept(states[i - 1], steps[i - 1], states[i], document);
    }
  }

  /** The step that started the run which is on, or ended last, before step `i`. */
  function LatestStart(steps: seq<Step>, i: nat): Option<Step>
    requires i <= |steps|
  {
    if i == 0 then None
    else if steps[i - 1].Start? then Some(steps[i - 1])
    else LatestStart(steps, i - 1)
  }

  /** The rows per commit asked for when the latest run was started. */
  function BatchSize(steps: seq<Step>, i: nat): (size: nat)
    requires i <= |steps|
    ensures size > 0
  {
    match LatestStart(steps, i)
    case Some(Start(_, checkpointPages)) => if checkpointPages >= 1 then checkpointPages else 1
    case _ => 1
  }

  function WorkerCount(steps: seq<Step>, i: nat): (count: nat)
    requires i <= |steps|
    ensures count > 0
  {
    match LatestStart(steps, i)
    case Some(Start(maxWorkers, _)) => if maxWorkers >= 1 then maxWorkers else 1
    case _ => 1
  }

  /** Checkpoints since the latest run was started. */
  function CheckpointCount(steps: seq<Step>, i: nat): nat
    requires i <= |steps|
  {
    if i == 0 || steps[i - 1].Start? then 0
    else CheckpointCount(steps, i - 1) + (if steps[i - 1].Checkpoint? then 1 else 0)
  }

  /** What a run has committed so far is `count` batches of `size` rows. */
  predicate InFullBatches(s: State, count: nat, size: nat) {
    s.phase.Running? ==> |s.committed| == |s.phase.base| + count * size
  }

  /** One step from a state that uses the settings of its run to the next. */
  lemma {:induction false} SettingsKept(
    s: State, step: Step, s': State, document: Document, size: nat, workers: nat, count: nat)
    requires Inv(s, document) && Next(s, step, s', document) && !step.Start?
    requires s.phase.Running? ==> s.phase.checkpoint == size && |s.phase.slices| <= workers
    requires InFullBatches(s, count, size)
    ensures s'.phase.Running? ==> s'.phase.checkpoint == size && |s'.phase.slices| <= workers
    ensures InFullBatches(s', count + (if step.Checkpoint? then 1 else 0), size)
  {
    hide MissingFrom, RowOf, InfoOf, Consistent, RowsOf, InfosOf, ReturnedPages, WorkersSane;
    if step.Checkpoint? { assert (count + 1) * size == count * size + size; }
  }

  /** A run uses the settings it was started with. */
  lemma {:induction false} RunSettings(states: seq<State>, steps: seq<Step>, document: Document, i: nat)
    requires History(states, steps, document) && i < |states|
    ensures states[i].phase.Running? ==>
              && states[i].phase.checkpoint == BatchSize(steps, i)
              && |states[i].phase.slices| <= WorkerCount(steps, i)
    ensures InFullBatches(states[i], CheckpointCount(steps, i), BatchSize(steps, i))
  {
    hide Inv, WorkSlices, BatchSize, WorkerCount, Next;
    if i > 0 {
      var s, step, s' := states[i - 1], steps[i - 1], states[i];
      RunSettings(states, steps, document, i - 1);
      SettingsStay(steps, i);
      HistoryInv(states, steps, document, i - 1);
      StepOf(states, steps, document, i);
      if step.Start? {
        WorkSlicesCover(Numbers(s.committed), |document|, Max(1, step.maxWorkers));
        StartedFresh(s, step, s', document);
      } else {
        SettingsKept(s, step, s', document, BatchSize(steps, i), WorkerCount(steps, i), CheckpointCount(steps, i - 1));
      }
    }
  }

  lemma {:induction false} StepOf(states: seq<State>, steps: seq<Step>, document: Document, i: nat)
    requires History(states, steps, document) && 0 < i < |states|
    ensures Next(states[i - 1], steps[i - 1], states[i], document)
  {
    hide Next;
  }

  lemma {:induction false} StartedFresh(s: State, step: Step, s': State, document: Document)
    requires Next(s, step, s', document) && step.Start?
    ensures s'.phase.Running? && s'.phase.checkpoint == Max(1, step.checkpointPages)
    ensures s'.phase.slices == WorkSlices(Numbers(s.committed), |document|, Max(1, step.maxWorkers))
    ensures s'.committed == s'.phase.base && s'.pending == []
  {
  }

  lemma {:induction false} SettingsStay(steps: seq<Step>, i: nat)
    requires 0 < i <= |steps|
    ensures steps[i - 1].Start? ==>
              && BatchSize(steps, i) == Max(1, steps[i - 1].checkpointPages)
              && WorkerCount(steps, i) == Max(1, steps[i - 1].maxWorkers)
    ensures !steps[i - 1].Start? ==>
              BatchSize(steps, i) == BatchSize(steps, i - 1) && WorkerCount(steps, i) == WorkerCount(steps, i - 1)
  {
  }

  lemma {:induction false} RowsOpen(s: State, document: Document)
    requires Inv(s, document) && s.phase.Running?
    ensures |s.pending| == s.phase.since <= s.phase.checkpoint
  {
  }

  /** Checkpoints: in every history at most as many rows are open as the run was asked to commit
      at a time, and fewer before another is added; each commit before the last takes exactly
      that many, so a crash after `k` checkpoints leaves `k` full batches. */
  lemma {:induction false} CommitsInBatches(states: seq<State>, steps: seq<Step>, document: Document, i: nat)
    requires History(states, steps, document) && i < |states|
    ensures |states[i].pending| <= BatchSize(steps, i)
    ensures i < |steps| && steps[i].Checkpoint? ==>
              |states[i + 1].committed| == |states[i].committed| + BatchSize(steps, i)
    ensures i < |steps| && (steps[i].Persist? || steps[i].Finish?) ==> |states[i].pending| < BatchSize(steps, i)
    ensures InFullBatches(states[i], CheckpointCount(steps, i), BatchSize(steps, i))
  {
    hide MissingFrom, RowOf, InfoOf, Consistent, BatchSize, RowsSane, WorkersSane;
    HistoryInv(states, steps, document, i);
    RunSettings(states, steps, document, i);
    if states[i].phase.Running? { RowsOpen(states[i], document); }
    if i < |steps| { assert Next(states[i], steps[i], states[i + 1], document); }
  }

  /** Committed rows are for distinct pages within 1..total, each the row of its page; at most
      one batch of rows is uncommitted in a run, and none outside it. */
  lemma {:induction false} CommittedSound(states: seq<State>, steps: seq<Step>, document: Document, i: nat)
    requires History(states, steps, document) && i < |states|
    ensures Consistent(states[i].committed, document)
    ensures states[i].phase.Running? ==> |states[i].pending| <= states[i].phase.checkpoint == BatchSize(steps, i)
    ensures !states[i].phase.Running? ==> states[i].pending == []
  {
    HistoryInv(states, steps, document, i);
    RunSettings(states, steps, document, i);
  }

  /** No crash, and nothing else, ever takes a committed row back. */
  lemma {:induction false} CommittedNeverShrinks(
    states: seq<State>, steps: seq<Step>, document: Document, i: nat, j: nat)
    requires History(states, steps, document) && i <= j < |states|
    ensures states[i].committed <= states[j].committed
    decreases j - i
  {
    if i < j {
      assert Next(states[i], steps[i], states[i + 1], document);
      CommittedNeverShrinks(states, steps, document, i + 1, j);
    }
  }

  lemma {:induction false} UnparsedPosition(s: State, document: Document, worker: nat)
    requires Inv(s, document) && CanParse(s, worker)
    ensures var missing := MissingPages(s.phase.base, document);
            exists x :: Position(s.phase) <= x < |missing| && missing[x] == ParsedPage(s, worker)
  {
    SlicePosition(s.phase.slices, worker);
    var x := PagesBefore(s.phase.slices, worker) + s.phase.parsed[worker];
    PagesBeforeGrows(s.phase.slices, s.phase.at, worker);
    assert MissingPages(s.phase.base, document)[x] == ParsedPage(s, worker);
  }

  lemma {:induction false} PagesBeforeGrows(slices: seq<seq<nat>>, i: nat, j: nat)
    requires i <= |slices| && j <= |slices|
    ensures i < j ==> PagesBefore(slices, i) + |slices[i]| <= PagesBefore(slices, j)
    ensures i == j ==> PagesBefore(slices, i) == PagesBefore(slices, j)
  {
    if i < j { PagesBeforeGrows(slices, i, j - 1); }
  }

  lemma {:induction false} ParsedIsNew(s: State, document: Document, worker: nat)
    requires Inv(s, document) && CanParse(s, worker)
    ensures ParsedPage(s, worker) !in Numbers(s.committed + s.pending)
    ensures 1 <= ParsedPage(s, worker) <= |document|
  {
    var base, missing, k := s.phase.base, MissingPages(s.phase.base, document), Position(s.phase);
    UnparsedPosition(s, document, worker);
    var x :| k <= x < |missing| && missing[x] == ParsedPage(s, worker);
    MissingFacts(Numbers(base), 1, |document|);
    ExtendedTable(base, document, k);
    ElementsMembers(missing, k, missing[x]);
  }

  /** A page whose row is committed is never parsed again, in this run or any later one. */
  lemma {:induction false} NeverParsedAgain(
    states: seq<State>, steps: seq<Step>, document: Document, i: nat, j: nat)
    requires History(states, steps, document) && i <= j < |steps| && steps[j].Parse?
    ensures CanParse(states[j], steps[j].worker)
    ensures ParsedPage(states[j], steps[j].worker) !in Numbers(states[i].committed)
  {
    HistoryInv(states, steps, document, j);
    assert Next(states[j], steps[j], states[j + 1], document);
    ParsedIsNew(states[j], document, steps[j].worker);
    CommittedNeverShrinks(states, steps, document, i, j);
  }

  /** A finished run leaves exactly the pages 1..total committed, each once, and returns what
      an uninterrupted run over an empty table returns, page by page and in every aggregate. */
  lemma {:induction false} FinishedRun(states: seq<State>, steps: seq<Step>, document: Document, i: nat)
    requires History(states, steps, document) && i < |states| && states[i].phase.Done?
    ensures Consistent(states[i].committed, document)
    ensures forall n: nat :: n in Numbers(states[i].committed) <==> 1 <= n <= |document|
    ensures var got, full := states[i].phase.extraction, Summary([], document);
            && got.pageCount == |document| == |got.pages| == |full.pages|
            && (forall p :: 0 <= p < |document| ==>
                  got.pages[p].number == p + 1 && SamePage(got.pages[p], full.pages[p]))
            && got.TotalChars() == full.TotalChars()
            && got.HasTextLayer() == full.HasTextLayer()
            && got.Confidence() == full.Confidence()
  {
    HistoryInv(states, steps, document, i);
    CompletedTable(states[i].phase.found, document);
    ResumedSummary(states[i].phase.found, document);
  }

  /** What a run adds, it adds in ascending page order. */
  lemma {:induction false} AscendingWithinRun(
    states: seq<State>, steps: seq<Step>, document: Document, i: nat, a: nat, b: nat)
    requires History(states, steps, document) && i < |states| && states[i].phase.Running?
    requires |states[i].phase.base| <= a < b < |states[i].committed + states[i].pending|
    ensures (states[i].committed + states[i].pending)[a].pageNumber
            < (states[i].committed + states[i].pending)[b].pageNumber
  {
    hide InfosOf, Next, Consistent;
    HistoryInv(states, steps, document, i);
    var base := states[i].phase.base;
    var missing, k := MissingPages(base, document), Position(states[i].phase);
    RowsLength(missing, k, document);
    RowAt(missing, k, document, a - |base|);
    RowAt(missing, k, document, b - |base|);
    MissingFacts(Numbers(base), 1, |document|);
    var rows, all := RowsOf(missing, k, document), states[i].committed + states[i].pending;
    assert all[a] == rows[a - |base|] && all[b] == rows[b - |base|];
  }

  // ---------------------------------------------------------------- progress

  function Unparsed(slices: seq<seq<nat>>, parsed: seq<nat>, j: nat): int
    requires j <= |slices| == |parsed|
  {
    if j == 0 then 0 else Unparsed(slices, parsed, j - 1) + |slices[j - 1]| - parsed[j - 1]
  }

  lemma {:induction false} UnparsedUpdate(slices: seq<seq<nat>>, parsed: seq<nat>, j: nat, worker: nat, count: nat)
    requires j <= |slices| == |parsed| && worker < |parsed|
    ensures Unparsed(slices, parsed[worker := count], j)
            == Unparsed(slices, parsed, j) - (if worker < j then count - parsed[worker] else 0)
  {
    if j > 0 { UnparsedUpdate(slices, parsed, j - 1, worker, count); }
  }

  lemma {:induction false} UnparsedNatural(slices: seq<seq<nat>>, parsed: seq<nat>, j: nat)
    requires j <= |slices| == |parsed| && forall i :: 0 <= i < |slices| ==> parsed[i] <= |slices[i]|
    ensures Unparsed(slices, parsed, j) >= 0
  {
    if j > 0 { UnparsedNatural(slices, parsed, j - 1); }
  }

  /** The steps a run has left at most. */
  function WorkLeft(s: State, document: Document): int
    requires s.phase.Running? && s.phase.at <= |s.phase.slices| == |s.phase.parsed|
  {
    var r := s.phase;
    Unparsed(r.slices, r.parsed, |r.slices|)
    + 2 * (|MissingPages(r.base, document)| - Position(r))
    + (if r.since >= r.checkpoint then 1 else 0)
    + |r.slices| - r.at + 1
  }

  /** Without a crash a run cannot get stuck: every step but a crash uses up work, and while
      the run is on, one of its own steps can be taken. */
  lemma {:induction false} WorkIsUsedUp(s: State, step: Step, s': State, document: Document)
    requires Inv(s, document) && s.phase.Running? && Next(s, step, s', document) && !step.Crash?
    ensures WorkLeft(s, document) > 0
    ensures s'.phase.Running? ==> s'.phase.at <= |s'.phase.slices| == |s'.phase.parsed|
    ensures s'.phase.Running? ==> WorkLeft(s', document) < WorkLeft(s, document)
  {
    var r := s.phase;
    UnparsedNatural(r.slices, r.parsed, |r.slices|);
    if step.Parse? {
      UnparsedUpdate(r.slices, r.parsed, |r.slices|, step.worker, r.parsed[step.worker] + 1);
    }
  }

  ghost predicate CanStep(s: State, document: Document) {
    exists step: Step, s' :: !step.Crash? && Next(s, step, s', document)
  }

  lemma {:induction false} NeverStuck(s: State, document: Document)
    requires Inv(s, document)
    ensures CanStep(s, document)
  {
    hide MissingFrom, RowOf, InfoOf, RowsOf, InfosOf, Consistent, MergedPages, ReturnedPages;
    var r := s.phase;
    if !r.Running? {
      var slices := WorkSlices(Numbers(s.committed), |document|, Max(1, 1));
      var s' := State(s.committed, [], Running(s.committed, slices, Max(1, 1), Zeros(|slices|), 0, 0, 0, []));
      assert Next(s, Start(1, 1), s', document);
    } else if r.since >= r.checkpoint {
      assert Next(s, Checkpoint, State(s.committed + s.pending, [], r.(since := 0)), document);
    } else if r.at == |r.slices| {
      var extraction := PdfExtraction(|document|, ReturnedPages(r.base, r.infos, |document|));
      assert Next(s, Finish, State(s.committed + s.pending, [], Done(r.base, extraction)), document);
    } else if r.parsed[r.at] < |r.slices[r.at]| {
      var s' := s.(phase := r.(parsed := r.parsed[r.at := r.parsed[r.at] + 1]));
      assert Next(s, Parse(r.at), s', document);
    } else if r.offset == |r.slices[r.at]| {
      assert Next(s, NextFuture, s.(phase := r.(at := r.at + 1, offset := 0)), document);
    } else {
      PersistsNextMissing(s, document);
      var n := r.slices[r.at][r.offset];
      var s' := State(
        s.committed, s.pending + [RowOf(n, OutcomeAt(document, n))],
        r.(offset := r.offset + 1, since := r.since + 1, infos := r.infos + [InfoOf(n, OutcomeAt(document, n))]));
      assert Next(s, Persist, s', document);
    }
  }
}
