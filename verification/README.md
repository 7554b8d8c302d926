# Ingestion and answering pipeline: models and proofs

This project models the algorithmic core of the book pipeline and proves what it is for. A book's
pages are extracted by a checkpointed parallel runner, laid out, indexed by section and cut into
page-anchored chunks; chunks are embedded through a cache and indexed; questions retrieve evidence,
which a chain of language-model providers turns into an answer, with or without streaming.

Most modules follow one source file each. Code that works by changing things step by step is written as
methods with loops or as classes with fields, and proved equal to a specification function; the
lemmas are about those functions.

| module | models |
|---|---|
| `Text`, `ChunkUnits`, `ChunkRanges`, `ChunkPacking`, `ChunkSentences`, `ChunkEngine` | the stages of the chunking engine over real strings: units, boundaries, recursive ranges, sentence splitting, packing with overlap, chunk text |
| `ChunkTheorems`, `ChunkContents` | what the composed engine guarantees about a whole book, and what its chunk records hold |
| `Extraction`, `ExtractionRunner` | page records, rows, work slices, summaries, and one run over a database session |
| `ExtractionProtocol` | the runner as a state machine: any interleaving of workers, commits in batches, a crash at any step, any number of runs |
| `CircuitBreaker`, `ProviderChain`, `Generation` | breaker, fallback chain with retries and backoff, and the attempt loop with and without streaming |
| `Layout`, `Structures` | column clustering and reading order; section ranges and active sections |
| `RateLimit` | the sliding-window limiter over sorted sets |
| `Retrieval`, `Metrics` | merge, rerank, compress; recall, reciprocal rank and nDCG |
| `Indexing`, `EmbeddingCache` | delete-then-upsert indexing; the vector cache |
| `BookIndexing` | chunking and indexing together |
| `Ids`, `Sequences`, `Sorting` | chunk ids, shared vocabulary and stable sorting |

Floats are reals. Clocks, quotas and provider behaviour are inputs: a provider is a script of what
each of its calls does. Hashes are injective constructors (chunk ids over the hashed string, point
ids, cache keys). A document is the sequence of outcomes of parsing its pages, so parsing is
deterministic and may fail per page. Answer validation is an arbitrary function from raw output, which
parsing strips first, to a payload or nothing. What a provider completes is what it would have
streamed, stripped. Rank weights are any strictly decreasing positive function, which covers
1 / log2(rank + 1).

## Where the claim has a condition

- A chunk's section headings are right at the primary level and all coarser ones. At finer levels
  they are those in force where the chunk's range starts: `ContextAtAnyLevel` says exactly when that
  is still the latest heading; in a boundary range of more words than the limit the first finer level
  is right too (`FinerHeadingHolds`). A coarser heading never clears a finer one
  (`SectionKeepsEarlierHeadings`): the first chunk of a bab is prefixed with the last fasl of an
  earlier bab (`FaslOutlivesBab`).
- Reading-order positions fill 0..n-1 exactly when no block lies in both the header and the footer
  band (`PositionsOntoRange`).
- A failure in HALF_OPEN reopens a breaker only when it completes the threshold
  (`HalfOpenFailure`), and there is a history in which it does not (`HalfOpenFailureMayNotReopen`),
  because a success recorded while OPEN zeroes the count and leaves the state.
- A provider that has just answered is left OPEN exactly when the failed attempts of the same request
  completed the threshold (`AnsweredLeavesOpen`); it happens with the service's own settings
  (`AnsweredYetOpenByDefault`).
- `stream_answer` raises where `generate` falls back exactly when a call raises something other than
  the provider error (`StreamRefinesGenerate`, `StreamMayRaise`). The method's documentation speaks of a provider that
  is unavailable on every attempt; the code falls back at the first such call, and so does the model.
- Points of other uploads survive a re-index exactly when none of them has one of the chunk ids
  (`OthersKept`); between two books these are the chunks with the same text at the same position
  (`BooksShareStore`). A crashed run leaves a trace exactly when it took another upload's id that the
  next run does not take (`CrashLeavesNoTrace`).
- nDCG is bounded by 1 for every rank weight exactly when the first k places hold no more hits than
  there are expected results and places (`NdcgBoundExactly`). The lists the evaluation scores have no
  duplicates and meet this (`EvaluatedBound`).
- Streaming over the provider chain ends as completing does unless the stream of the deciding attempt
  dies after its first token (`ServiceStreamRefines`); then the caller gets the synthesized answer,
  where completing would have gone on to the next attempt or provider.

## Model

| member | source | states |
|---|---|---|
| ChunkEngine.ExtractChunksLoop | app/services/chunking.py:116-162 | the nested loops over boundary ranges, sub-ranges and packs give the chunks of the composed stages, for all token limits and overlaps, invalid ones replaced by their defaults; what those chunks hold is in the rows below |
| ChunkEngine.SettingsUsed | app/services/chunking.py:130-132 | a limit below one counts as one, an overlap that is not a share as 15%, and the overlap budget is that share of the limit rounded down, at least one word |
| ChunkTheorems.Conservation | app/services/chunking.py:141-162 | removing from every chunk the sentences it starts with that were carried over from the previous chunk of its range leaves the sentences of all body units with their pages, in order, none lost, moved or repeated |
| ChunkTheorems.VisibleConservation | app/services/chunking.py:136-162 | the same down to characters: the fresh parts of all chunks spell the visible text of the body blocks of all pages |
| ChunkContents.ChunkText | app/services/chunking.py:372-419 | chunk n is numbered n; its text is its heading, an empty line and the sentences of its place in order, a newline before a sentence of another unit and a blank otherwise, or these alone without a heading; the heading is one line, label and name, per level in force with a name, coarsest first; its word count is that of both parts |
| ChunkContents.ChunkTextConservation | app/services/chunking.py:136-162 | the texts of the chunk records, each without its heading and the sentences it carries over, spell the visible text of the body blocks of all pages |
| ChunkContents.KeysAreOwners | app/services/chunking.py:296-308 | two sentences of a range have the same unit key exactly when they come from the same block |
| ChunkTheorems.PageRule | app/services/chunking.py:219-248 | where two neighbouring sentences of a chunk are on different PDF pages, the first is the tail of the last unit of its page, which is body text and does not end in sentence-final punctuation |
| ChunkTheorems.PageRuleOfBook | app/services/chunking.py:136-162 | the whole page rule for every book whose pages come in increasing number order |
| ChunkTheorems.SectionContext | app/services/chunking.py:196-230 | at the primary level and every coarser one, the heading a chunk carries is the latest heading of that level before each of its sentences |
| ChunkTheorems.ContextAtAnyLevel | app/services/chunking.py:287-293 | at any level: it is the latest one exactly when the range has no later heading of that level before the sentence, or the last one has the same text |
| ChunkTheorems.SectionKeepsEarlierHeadings | app/services/chunking.py:287-293 | a heading clears no other level: a chunk at the opening of a section carries, next to the section's heading, the latest heading of every other level placed anywhere before it |
| ChunkTheorems.FaslOutlivesBab | app/services/chunking.py:287-293 | in every book of two babs with a fasl under the first one only, a chunk of the second bab carries that fasl |
| ChunkTheorems.TokenBudget | app/services/chunking.py:330-364 | if no sentence has more than m words, no chunk body has more than max(maxTokens, max(overlap budget, m) + m) words |
| ChunkContents.ChunkBudget | app/services/chunking.py:330-394 | the same for the chunk records: besides its heading a chunk counts at most that many words |
| ChunkTheorems.PageAnchors | app/services/chunking.py:372-394 | a chunk's first and last pages are those of its first and last sentence, and every sentence of it lies on a page between them |
| ChunkTheorems.ChunkIdsIdentify | app/services/chunking.py:372-394 | chunks of one book, or of two books cut with any settings, have the same id exactly when they have the same position and the same text, so ids within a book are pairwise different |
| ChunkEngine.IdsIdentify | app/services/chunking.py:378 | the hashed string, order index in decimal, colon and raw text, determines both parts, whatever colons and digits the text has |
| ChunkRanges.ChunkSpansPartition | app/services/chunking.py:251-284 | boundary and recursive splitting give an ordered partition of all units, and no boundary lies strictly inside a range |
| ChunkRanges.SplitRangeChained | app/services/chunking.py:261-284 | recursive splitting of a range covers it end to end, within the range |
| ChunkRanges.SplitRangeAtHeadings | app/services/chunking.py:261-284 | every cut a recursive split makes is at a heading of one of the finer levels |
| ChunkRanges.SplitRangeExactly | app/services/chunking.py:261-284 | where an oversized range is cut: at every heading of the next finer level, and in each section between two of them that is still oversized at every heading of the level after that, and so on; nowhere else |
| ChunkRanges.RangesExactly | app/services/chunking.py:141-153 | ranges begin exactly at the boundaries and at the cut points of the boundary range around a unit |
| ChunkContents.FinerHeadingHolds | app/services/chunking.py:275-293 | in a boundary range of more words than the limit, chunks carry the latest heading before each of their sentences at the first finer level too |
| ChunkRanges.RangesLoop | app/services/chunking.py:251-258 | sorting, deduplicating and pairing the bounds is cutting the interval at the starts |
| ChunkUnits.BoundaryStartsLoop | app/services/chunking.py:219-230 | the loop lists exactly the units where a chunk must begin: headings of boundary levels and page breaks no sentence crosses, ascending |
| ChunkUnits.AdjacentUnitDecides | app/services/chunking.py:233-248 | with pages in order, the whole-list scan for a page's last unit agrees with the unit just before the break |
| ChunkUnits.BoundaryExactly | app/services/chunking.py:219-248 | with pages in order, a boundary is a heading of a boundary level, or a new page after a heading or a finished sentence, and nothing else |
| ChunkUnits.LevelsDivided | app/services/chunking.py:196-216 | Bab is the primary level when present, else Fasl, else Kitab; it and the coarser levels always split, the finer ones are tried in order |
| ChunkUnits.UnitsOfBlocks | app/services/chunking.py:165-193 | units are made one by one of the blocks that are not blank, in book order, with the block's stripped text and level and the page's two numbers |
| ChunkUnits.PageContinuesLoop | app/services/chunking.py:233-248 | the scan with its early exit computes whether the last unit of a page is unfinished body text |
| ChunkUnits.ContextAtLoop | app/services/chunking.py:287-293 | the loop gives, per level, the latest heading up to a unit |
| ChunkPacking.SentencePackLoop | app/services/chunking.py:330-351 | greedy packing with a carried tail gives the slices of the windows of the range |
| ChunkPacking.PackingIsWellPacked | app/services/chunking.py:330-364 | windows have strictly increasing right ends and non-decreasing left ends, neighbours share at least one sentence and at most the overlap budget beyond it, and every pack but the last could not take the next sentence |
| ChunkPacking.WellPackedUnique | app/services/chunking.py:330-364 | those guarantees determine the packing: two lists of windows that keep them are equal |
| ChunkPacking.TailSentencesLoop | app/services/chunking.py:354-364 | the backward loop returns the suffix that starts where the carried tail starts |
| ChunkPacking.TailIsLongestFit | app/services/chunking.py:354-364 | the carried tail is the longest suffix within the overlap budget, or one sentence |
| ChunkSentences.FlattenSentencesLoop | app/services/chunking.py:296-308 | the loop gives the sentences of the body units of a range, each with its unit's pages |
| ChunkSentences.PageBreakOwners | app/services/chunking.py:296-308 | where neighbouring sentences are on different pages, the first closes its unit and only headings lie between the two units |
| ChunkEngine.JoinFacts | app/services/chunking.py:397-410 | joining sentences adds only whitespace, and the word count of the result is the sum the packer budgeted |
| Text.SplitSentencesLoop | app/services/chunking.py:311-327 | the loop over punctuation runs computes the sentences |
| Text.SplitSentencesConserves | app/services/chunking.py:311-327 | splitting keeps every visible character in order; each sentence is stripped and not empty, has punctuation only as its closing run, and all but the last are closed |
| Text.SentencesBetweenRuns | app/services/chunking.py:311-327 | the sentences are the stripped text cut after every run of final punctuation and nowhere else, each piece stripped |
| Text.SplitSentencesTail | app/services/chunking.py:311-327 | a stripped text has a last sentence that ends as the text ends, so an unfinished text leaves an unfinished sentence |
| Text.TokensAcrossSpace | app/services/chunking.py:367-369 | word counts add up across whitespace |
| Text.OneWord | app/services/chunking.py:367-369 | text without whitespace is one word, empty text none |
| Extraction.RowRoundTrip | app/services/extraction.py:404-416 | a row keeps the geometry, character count, text flag and confidence of its page, failed pages included |
| Extraction.ParsedPageRecord | app/services/extraction.py:404-416 | the row and the page of a parsed page: its number and geometry, the characters of its blocks, the block count, whether it has 20 characters, and the share of 4000 it fills |
| Extraction.FailedPageRecord | app/services/extraction.py:454-470 | the row and the page of a page that could not be parsed: geometry and error kept, no text |
| Extraction.SummaryTotals | app/services/extraction.py:337-387 | a book's summary counts the characters of its parsed pages, has a text layer exactly when some page has text, and has the mean confidence |
| Extraction.PartitionCovers | app/services/extraction.py:261-265 | the work partition lists every index once in order, in non-empty slices, at most one per worker |
| Extraction.PartitionEven | app/services/extraction.py:261-265 | all slices but the last have the same length, the number of pages per worker rounded up, and the last is no longer |
| Extraction.WorkSlicesCover | app/services/extraction.py:350-357 | the slices handed to the pool list exactly the pages without a row, ascending |
| Extraction.ResumedSummary | app/services/extraction.py:377-384 | from any consistent set of rows, a resumed summary equals the uninterrupted one page by page, and in total characters, text-layer flag and confidence |
| Extraction.ReturnedIsSummary | app/services/extraction.py:377-384 | merging new and stored pages by number gives pages 1..total once each |
| ExtractionRunner.ExtractSlice | app/services/extraction.py:268-301 | a worker returns one result per page of its slice in order, failures as records |
| ExtractionRunner.PersistAll | app/services/extraction.py:359-375 | consuming slices in submission order adds one row per missing page in ascending order and leaves nothing uncommitted |
| ExtractionRunner.MergePages | app/services/extraction.py:377-384 | the dictionary merge returns the summary's pages |
| ExtractionRunner.Run | app/services/extraction.py:337-387 | one run commits exactly the missing pages after the stored ones and returns the summary of the whole book; after a first commit of none, every commit takes exactly checkpoint_pages rows (at least one) but the last, which takes what is left, fewer |
| ExtractionProtocol.InvKept | app/services/extraction.py:337-387 | every step of every interleaving, crashes included, keeps the protocol invariant |
| ExtractionProtocol.CommittedSound | app/services/extraction.py:359-375 | in every reachable state committed rows are for distinct pages within 1..total, each the row of its page, and at most as many rows are uncommitted as the latest start asked to commit at a time |
| ExtractionProtocol.CommitsInBatches | app/services/extraction.py:359-375 | every checkpoint takes exactly the number of rows the run was started with, before another row is added fewer are open, and after k checkpoints exactly k such batches of the run are committed |
| ExtractionProtocol.RunSettings | app/services/extraction.py:337-358 | a run keeps the checkpoint size it was started with and has no more slices than its workers |
| ExtractionProtocol.CommittedNeverShrinks | app/services/extraction.py:359-387 | committed rows are never taken back, in later runs either |
| ExtractionProtocol.NeverParsedAgain | app/services/extraction.py:345-357 | a page whose row is committed is never parsed again |
| ExtractionProtocol.FinishedRun | app/services/extraction.py:337-387 | a run that finishes, after any crashes, leaves exactly pages 1..total committed and returns what one uninterrupted run returns |
| ExtractionProtocol.AscendingWithinRun | app/services/extraction.py:363-375 | the rows a run adds are in ascending page order |
| ExtractionProtocol.NeverStuck | app/services/extraction.py:337-387 | every state the invariant allows, so every reachable one, has a step other than a crash |
| ExtractionProtocol.WorkIsUsedUp | app/services/extraction.py:337-387 | every step of a run but a crash decreases the work left, so a run that does not crash finishes |
| CircuitBreaker.CircuitBreakerState.RecordFailure | app/services/generation/providers.py:177-188 | the fields after a failure are those of the transition function |
| CircuitBreaker.CircuitBreakerState.RecordSuccess | app/services/generation/providers.py:169-175 | the fields after a success are those of the transition function |
| CircuitBreaker.CircuitBreakerState.CanAttempt | app/services/generation/providers.py:190-210 | admission and the fields after the check are those of the transition function |
| CircuitBreaker.Reachable | app/services/generation/providers.py:161-210 | over every history the count is that of failures since the last success, and CLOSED means it is below the threshold |
| CircuitBreaker.LeavesClosed | app/services/generation/providers.py:177-188 | a breaker leaves CLOSED exactly at the failure that completes the threshold with no success between |
| CircuitBreaker.ReopensThroughHalfOpen | app/services/generation/providers.py:169-175 | between an OPEN and a later CLOSED state there is a success recorded in HALF_OPEN |
| CircuitBreaker.RefusesUntilRecovered | app/services/generation/providers.py:190-210 | an OPEN breaker admits exactly after the recovery time since the last failure; other states always admit |
| CircuitBreaker.HalfOpenFailure | app/services/generation/providers.py:177-188 | a failure in HALF_OPEN reopens exactly when it completes the threshold since the last success |
| CircuitBreaker.HalfOpenFailureMayNotReopen | app/services/generation/providers.py:169-188 | for every threshold above one, a history in which a failure in HALF_OPEN does not reopen |
| ProviderChain.BuildChain | app/services/generation/providers.py:980-988 | the chain lists keyed names in the order they first occur among the primary and the fallbacks |
| ProviderChain.ChainFacts | app/services/generation/providers.py:980-988 | the chain has no duplicates, holds exactly the keyed candidates, starts with the primary when that has a key, and has the fallbacks in the order the configured list first names them |
| ProviderChain.ProviderManager.Complete | app/services/generation/providers.py:1023-1050 | the nested retry loops return the outcome of the first decisive call, its text stripped, and leave breakers and total sleep as specified |
| ProviderChain.ProviderManager.Stream | app/services/generation/providers.py:1052-1099 | the same for streaming: the tokens yielded are those of one attempt |
| ProviderChain.ProviderManager.CanUse | app/services/generation/providers.py:692-709 | a provider is usable when its breaker admits and its quota is not exceeded; the check may turn the breaker HALF_OPEN |
| ProviderChain.FirstDecisiveCall | app/services/generation/providers.py:1023-1099 | the outcome is that of the first decisive call in chain-then-attempt order, and all fail exactly when every rung is refused or spends all its attempts |
| ProviderChain.CompleteIsFirstSuccess | app/services/generation/providers.py:1023-1050 | an answer is the stripped text of the first success: every tried call before it was unavailable |
| ProviderChain.TotalBackoff | app/services/generation/providers.py:1033-1035 | total sleep is the number of exhausted rungs that were tried times 0.5 * (2^retries - 1), plus 0.5 * (2^d - 1) when attempt d of the next one decides |
| ProviderChain.PausesDouble | app/services/generation/providers.py:1034-1035 | no pause before the first attempt, half a second before the second, and each later one twice the one before |
| ProviderChain.FailureReport | app/services/generation/providers.py:1026-1050 | a failed request reports every rung in chain order: why it was passed over, or the message of each of its attempts |
| ProviderChain.ReplyOfDecisiveCall | app/services/generation/providers.py:1023-1099 | what the caller gets is the text and the end of the first decisive call, raw when streaming and stripped when not, or unavailability with all messages |
| ProviderChain.JoinedSpelled | app/services/generation/providers.py:1050 | the messages are joined in order with a semicolon and a blank between them |
| ProviderChain.RungBreaker | app/services/generation/providers.py:1023-1049 | what a tried rung leaves of its breaker, whatever its calls do: count, time of the last failure and status; an exception other than the provider error is not counted |
| ProviderChain.RungTouchesOwn | app/services/generation/providers.py:692-709 | a rung leaves other breakers alone, and its own but for the move to HALF_OPEN when it is passed over |
| ProviderChain.StreamAgreesWithComplete | app/services/generation/providers.py:1023-1099 | when all providers stream and no stream dies after its first token, streaming and completing make the same calls and sleeps, and the completed text is the streamed one, stripped |
| ProviderChain.ChainKeepsReachable | app/services/generation/providers.py:728-738 | whatever requests do, every breaker stays within the histories of its own state machine |
| ProviderChain.AnsweredLeavesOpen | app/services/generation/providers.py:1033-1049 | a provider that has just answered has count 0 and is left OPEN exactly when attempts of the same request failed first and reached the threshold together with the failures counted before; otherwise it is CLOSED |
| ProviderChain.AnsweredYetRefused | app/services/generation/providers.py:692-709 | after answering, a provider is refused exactly when over quota, or left OPEN with its recovery time not over |
| ProviderChain.AnsweredYetOpenByDefault | app/services/generation/providers.py:660-668 | with the threshold the service builds and one retry, a request that fails twice and one that fails once and is answered leave the provider OPEN |
| ProviderChain.SameReplies | app/services/generation/providers.py:1023-1099 | over requests in a row, up to the first stream that dies half way, a caller that streams and one that completes find the same breakers and get the same ends, the completed texts being the streamed ones, stripped |
| ProviderChain.RotateStream | app/services/generation/providers.py:504-526 | rotation through models yields the parts of the first decisive model, or is unavailable |
| ProviderChain.RotationIsFirstDecisive | app/services/generation/providers.py:492-526 | a rotating provider looks to the chain like one call, decisive exactly when one of its models is |
| ProviderChain.RotationFails | app/services/generation/providers.py:492-526 | when no model decides, the rotation is unavailable and names the error of the last model |
| Generation.Generate | app/services/generation/service.py:79-139 | the answer is that of the first call whose output is not rejected, or a refusal, with no call after the deciding one and at most retries + 1 |
| Generation.StreamAnswer | app/services/generation/service.py:141-228 | the events yielded and whether the generator raises, with no call after the deciding one and at most retries + 1 |
| Generation.AnswerByAttempt | app/services/generation/service.py:79-139 | after attempts that finished and were refused by validation: an accepted attempt gives the answer of its own payload, an unavailable provider or vendor exception the synthesized one, and when every attempt is refused the answer is a refusal; no call is made after that |
| Generation.StreamByAttempt | app/services/generation/service.py:141-228 | the same for the stream: the chunks of every attempt made, as they came, then the validated answer, the replayed synthesized one, the refusal, or a raise on a vendor exception |
| Generation.StreamRefinesGenerate | app/services/generation/service.py:79-228 | for every streaming script: raises exactly when a vendor exception is reached, otherwise yields tokens and one final answer equal to that of generate on the joined parts |
| Generation.StreamMayRaise | app/services/generation/service.py:198-199 | where a vendor exception comes first, the stream raises after the parts already sent while generate answers |
| Generation.CompleteOnlyRefines | app/services/generation/service.py:230-249 | for complete-only providers the stream raises exactly when a vendor exception is reached and otherwise ends with the answer of generate, so scripts of texts and unavailability never raise |
| Generation.ServiceStreamRefines | app/services/generation/service.py:79-228 | over the real provider chain, with breakers carried from attempt to attempt: unless the deciding stream dies after its first token, stream_answer raises exactly when completing reaches a vendor exception and otherwise ends with generate's answer, after the same number of requests and with the same breakers; if it dies, the stream ends with the synthesized answer |
| Generation.GroundedTokens | app/services/generation/service.py:180-222 | a grounded stream ends with the parts of the validated attempt and its answer |
| Generation.DeltasReassemble | app/services/generation/service.py:326-341 | replayed word groups reassemble to the explanation up to trailing whitespace |
| Generation.DeltasOfFourWords | app/services/generation/service.py:326-341 | each delta is the next four words and a blank, the last one what is left |
| Layout.ClusterColumnsLoop | app/services/layout.py:197-214 | the sort-and-sweep loop computes the columns |
| Layout.ColumnsAreChains | app/services/layout.py:197-214 | two blocks share a column exactly when a chain of blocks with centre gaps of at most 18% of the page width links them |
| Layout.ClusterConserves | app/services/layout.py:197-214 | clustering keeps every block once, in non-empty columns |
| Layout.ColumnsOfPage | app/services/layout.py:221-236 | the columns numbered are those of the blocks outside both bands, by gaps of 18% of the page width: none is empty, every body block is in one, and two share one exactly when a chain of body blocks links them |
| Layout.ReadingOrder | app/services/layout.py:221-249 | the numbering loops number headers, columns and footers in reading order, later numbers replacing earlier ones |
| Layout.HeadersFirstFootersLast | app/services/layout.py:221-249 | header-band blocks come before body blocks, and body blocks before footer-band blocks |
| Layout.ColumnMajor | app/services/layout.py:217-249 | columns are ordered by left edge and on the same left edge by right edge, or the other way round for RTL pages, and every block of an earlier column comes before every block of a later one |
| Layout.ColumnFromTheTop | app/services/layout.py:242-245 | inside a column a block higher up by rounded height, or on the same height and further left, comes first |
| Layout.TenthsIsNearest | app/services/layout.py:243 | heights are rounded to the nearest tenth, half way to the even one |
| Layout.BandsFromTheTop | app/services/layout.py:239-248 | inside the header band and inside the footer band a block higher up, or on the same height and further left, comes first |
| Layout.PositionsDistinct | app/services/layout.py:221-249 | every block gets a position and different blocks get different ones |
| Layout.PositionsOntoRange | app/services/layout.py:221-249 | the positions are exactly 0..n-1 if and only if no block lies in both bands |
| Structures.DetectStructures | app/services/metadata.py:466-520 | the scan emits the ranges and per-page names of the specification |
| Structures.RangesTile | app/services/metadata.py:490-519 | for each level the ranges are contiguous and disjoint and cover the pages from its first heading to the last page |
| Structures.ActiveIsLatest | app/services/metadata.py:503-507 | a page stores a name for a level exactly when that level has a heading up to it, and it is the latest |
| Structures.ActiveIsRange | app/services/metadata.py:473-520 | the stored name is that of the one range of the level that contains the page; without a name no range does |
| Structures.RangesNamed | app/services/metadata.py:466-520 | at every level, topics included, ranges start exactly on the pages with a heading of the level, and the one range that contains a page has the name of the latest heading up to it |
| RateLimit.RateLimitStore.Check | app/services/rate_limit.py:26-53 | a check records one attempt exactly when its transaction executes, whatever it answers, lets the key expire a window later and leaves other scopes alone; an attempt over the limit is let through when the store is down, the reply is lost or the oldest entry cannot be fetched |
| RateLimit.RecordedIsWindow | app/services/rate_limit.py:39-44 | at every attempt the set holds exactly the attempts of the last window |
| RateLimit.Decision | app/services/rate_limit.py:34-47 | an attempt is let through exactly when fewer than limit attempts came before or the limit-th one before it is a window old |
| RateLimit.WindowSafety | app/services/rate_limit.py:34-47 | over every run at most limit attempts are let through in any half-open interval of window length |
| RateLimit.ExpiryIrrelevant | app/services/rate_limit.py:43 | over any run, at whichever attempts the store drops an expired key or still has it, sets, decisions and waiting times are the same |
| RateLimit.RetryOutlastsOldest | app/services/rate_limit.py:49-53 | a rejected attempt is told to wait 1 to window + 1 seconds, the least whole number after which the oldest entry has left the window |
| RateLimit.HammeringStaysBlocked | app/services/rate_limit.py:39-47 | because rejected attempts are recorded, a client whose consecutive attempts are always closer than window / limit is let through for its first limit attempts and for none after |
| Retrieval.MergeHits | app/services/retrieval.py:379-394 | the dictionary merge and cut give the merged hits |
| Retrieval.MergeKeepsBest | app/services/retrieval.py:379-394 | each chunk is kept once, with a hit none of its others outscores, by falling score |
| Retrieval.MergeDropsLowest | app/services/retrieval.py:379-394 | a dropped chunk has no hit that outscores a kept one, and chunks are dropped only when limit are kept |
| Retrieval.MergeTies | app/services/retrieval.py:379-394 | a chunk is kept with the first of its best hits, and of chunks with equal scores the one met first comes first |
| Retrieval.AllHitsListed | app/services/retrieval.py:386-389 | the hits merged are those of all searches, list after list, failed searches counting as empty |
| Retrieval.RerankFacts | app/services/retrieval.py:288-321 | reranking hands on a descending list of distinct merged hits, all of them when every hit is scored |
| Retrieval.RerankScores | app/services/retrieval.py:288-321 | a handed on hit is scored by the largest of its two query scores and its dense score, the two kept beside it; with reranking off hits keep order and score |
| Retrieval.Compress | app/services/retrieval.py:323-363 | the loop with both early exits equals floor filter, first of each signature, cut |
| Retrieval.EvidenceSound | app/services/retrieval.py:323-363 | evidence is descending, with distinct chunks and signatures, at or above the floor, within the size asked for |
| Retrieval.LeftOutIsLow | app/services/retrieval.py:323-363 | what is left out is below the floor, has a kept near-duplicate that scores no less, or outscores nothing in a full evidence |
| Retrieval.EvidenceExactly | app/services/retrieval.py:323-363 | the evidence is, in ranking order, the items at or above the floor that are the first with their signature, up to the size asked for |
| Retrieval.PipelineSound | app/services/retrieval.py:288-394 | whatever the searches return, the final evidence is descending and distinct and drawn from their hits |
| Sorting.SortStable | app/services/retrieval.py:321 | sorting keeps the order of elements that tie |
| Sorting.StablePositions | app/services/retrieval.py:321 | of two elements that tie, the one that comes first after sorting came first before |
| Metrics.MrrLoop | app/services/eval/metrics.py:43-48 | the loop returns the reciprocal rank of the first expected result |
| Metrics.FrontIsBest | app/services/eval/metrics.py:55-59 | hits gain at most what they would in the first places, and that much exactly when they are there |
| Metrics.NdcgBound | app/services/eval/metrics.py:51-61 | without duplicates nDCG is in [0, 1], and 1 exactly when the first min(expected, k) results are all expected |
| Metrics.NdcgBoundExactly | app/services/eval/metrics.py:51-61 | for any list, duplicates included, nDCG at k is at most 1 for every rank weight exactly when the first k places hold no more hits than there are expected results and places |
| Metrics.SingleExpected | app/services/eval/metrics.py:36-61 | with one expected result, nDCG is the weight of its rank over that of the first rank within the cut-off and zero beyond, and the reciprocal rank that of its place |
| Metrics.EvaluatedBound | app/services/eval/runner.py:169-234 | the lists the evaluation scores, ids of the evidence the retrieval pipeline returns, have nDCG in [0, 1] whatever the searches return |
| Metrics.MetricsAgree | app/services/eval/metrics.py:36-61 | recall at k is 1 exactly when nDCG at k is positive and exactly when the reciprocal rank is at least 1/k |
| Indexing.BuildPoints | app/services/indexing.py:228-246 | points map one to one onto chunks in order, whatever the embedding batch size |
| Indexing.Run | app/services/indexing.py:128-166 | a run deletes the upload's points and upserts the new ones in batches, with the same store for all batch sizes; missing chunks or metadata change nothing |
| Indexing.OnePointPerChunk | app/services/indexing.py:145-158 | from any store a completed run leaves exactly one point per chunk for the upload |
| Indexing.OthersKept | app/services/indexing.py:145-158 | points of other uploads are unchanged exactly when none has a chunk's id |
| Indexing.CrashLeavesNoTrace | app/services/indexing.py:145-158 | after a crash, even of a run over older chunks, the next completed run gives the store it would have given anyway exactly when the crashed run took no other upload's id that the next run does not take |
| Indexing.RerunIsIdempotent | app/services/indexing.py:145-158 | rerunning the same chunks after a crash at any point ends in the same store, whatever the chunk ids |
| Indexing.ProgressSound | app/services/indexing.py:147-160 | progress never falls, is at most 99 until the end and ends at 100 |
| Indexing.ProgressAt | app/services/indexing.py:147-160 | after each batch progress is the percentage of points stored by then, rounded down, at most 99, one value per batch |
| BookIndexing.OnePointPerBookChunk | app/services/indexing.py:145-158 | indexing any book, chunked with any settings, into any store leaves exactly one point per chunk for its upload: the engine's ids meet what a run asks of them |
| BookIndexing.BooksShareStore | app/services/indexing.py:214-220 | when another upload's book is indexed afterwards, a book's point survives exactly when the other book has no chunk with the same text at the same position |
| EmbeddingCache.CachingEmbedder.Embed | app/services/embedding.py:159-166 | returns the true vector after one lookup and asks the embedder exactly when that lookup was not answered, which without cache faults is when the text was not cached; afterwards, without faults, the text is cached and nothing else has changed |
| EmbeddingCache.CachingEmbedder.EmbedBatch | app/services/embedding.py:168-190 | returns the true vector at every position, duplicates included, whatever the cache forgets; looks every text up once in order and sends the embedder exactly the texts whose lookup was not answered, in order, or nothing; without cache faults those are exactly the texts not cached, and afterwards all of them are cached and nothing else has changed |

## Left out

- PDF parsing, database, Redis, Qdrant and HTTP clients, job queue wrappers, logging: only their effect on tables, sets and maps is modelled.
- Block regions, reading order and heading levels are inputs of the chunking model; `_classify_block`, `_heading_level` and the font heuristics are not modelled.
- Normalised chunk text, real hashing and chunk persistence: a chunk id stands for the string it is hashed from, injective as the hash is taken to be.
- Images, drawings and child rows of blocks and spans: a page row carries block count, geometry and the aggregates.
- Rounding of job progress during extraction and the page-count guard.
- Provider usage counters: whether a quota is exceeded is an input per request. Abandoning a stream half way by the consumer is not modelled.
- Assembling citations, quotes and confidence from a validated payload: an accepted payload stands for its answer.
- Model output that differs between a completing and a streaming call of one provider: one script drives both, and completing strips its text.
- Answer validation, HTML sanitising, prompts, translation and query expansion.
- Requests of other clients between the limiter's transaction and its fetch of the oldest entry; the theorems about runs are about attempts whose transactions all execute and whose replies all arrive.
- `remaining` and `reset` of the limiter, `_remaining_candidates`, citation accuracy, groundedness, refusal and latency metrics: single-branch or counting members.
- Square roots in the deterministic embedder: the wrapped embedder is an arbitrary function of the text.
- Float rounding everywhere.
