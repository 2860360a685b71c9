# FEME, modelled in Dafny

FEME keeps evidence-backed memory claims for projects. It splits a source text into
chunks of tokens, extracts claim candidates that quote the chunks, decides which become
stored claims, tracks contradictions, reviews, decay and retention, packs claims and
chunks into contexts for answering, and records what it does in a hash-chained ledger on
SQLite or Postgres. This project models those components and proves what their code and
documentation promise of them.

## What is modelled

| part | modules |
|---|---|
| ledger: framing, hashing, append, checker, deletion, concurrent appends | `Timestamps`, `LedgerFraming`, `Ledger`, `LedgerAppend`, `LedgerDeletion`, `MemoryLedger`, `LedgerProtocol` |
| SQL script splitter and placeholder rewriter | `SqlLexer`, `SqlRoundTrip`, `Placeholders` |
| tokens, chunks, exact quotes | `Tokens`, `Chunking`, `Spans` |
| extraction: payload contract, span repair, sentences, adapter, modes | `Payloads`, `ExtractionSchema`, `SpanRepair`, `Sentences`, `Candidates`, `ClaimExtraction`, `ExtractionProperties` |
| claim governance over one store | `Store`, `WriteGovernor`, `Contradictions`, `Review`, `Lifecycle`, `Retention`, `EvidenceIngest`, `EvidenceExtraction`, `Integrity`, `GovernanceRuns`, `RedactionRuns` |
| connections: transactions, commits, statements that raise | `Connections` |
| transactional ingestion | `IngestionStates`, `PipelineProperties`, `IngestionPipeline` |
| selection: rerank, search, context packing, verification | `Results`, `Rerank`, `Retrieval`, `ContextBuilder`, `AnswerVerifier` |
| shared helpers | `Options`, `Text`, `Counting` |

Code that updates things step by step is a method over fields, an array-like sequence or a
mutable object, proved equal to a function of the old state; the properties are lemmas
about those functions, so they hold of the methods too. `hide` statements keep function
bodies a proof does not need away from the solver.

The operations that share a transaction take a `Connection`. It holds what the open
transaction sees and, apart from it, what is committed; every statement may raise, as its
`raises` says, and so may leaving a block, as its `leavingRaises` says; each callee has the
`autocommit` flag of the code. The other operations,
which open and commit a connection of their own, work on a `Database`.

Everything outside the components enters as a parameter, so each result holds for every
choice of it: the hash function (`Digest`, `Sha`; collision-free only where a lemma says
so), the clock and the identifiers drawn, the lock numbering, the word characters, key
normalisation, polarity, embedding similarity, privacy and retrieval scores, the sentence
patterns, and whatever a structured extractor answers. Table queries without an order are
read in insertion order; the ledger's verdict does not depend on it
(`LedgerDeletion.AnyReadingOrder`).

## Results that differ from what one would expect

- `LedgerAppend.AppendSound`: appending keeps the chain exactly when the project's newest
  stamp is not `datetime.max`; the bump past it overflows, the code swallows that, and
  `LedgerAppend.ForkAfterLatest` shows the fork. `LedgerProtocol.EveryInterleavingChains`
  carries the condition over runs.
- `LedgerAppend.UnscopedNeedsOneProject`: the check without a project accepts a sound
  ledger exactly when at most one project has rows.
- `LedgerAppend.ActorNotCovered`, `LedgerAppend.TamperEvidentIff`: the actor is not hashed,
  and a 0x1F inside a hashed field lets text move into the field beside it unnoticed.
- `LedgerDeletion.ScopedDeletionIff`, `LedgerDeletion.UnscopedDeletionIff`: deleting a
  project's first or last rows goes unnoticed by the check of that project, deleting its
  last rows by the check of all; a hole is always noticed.
- `Placeholders.ConvertCommutesIff`: rewriting and splitting commute exactly when quotes
  counted from the script's start and from each statement's start agree at every `?`; a
  comment with an apostrophe breaks that (`Placeholders.CommentBreaksCommuting`).
- `Spans.CountOneIff`: `str.count` equal to one proves a quote unique in every source
  exactly for quotes that do not overlap themselves.
- `ExtractionProperties.NothingDroppedIff`, `ExtractionProperties.AcceptedInRangeIff`: with
  both list keys present the validator and the adapter read different lists
  (`ExtractionProperties.TwoListsDrop`, `ExtractionProperties.SecondListUnchecked`), and a
  bare list is not validated at all (`ExtractionProperties.BareListUnchecked`).
- `Contradictions.ScanLeavesRestIff`: a scan may dispute a claim that is not live; the
  pipeline never does (`PipelineProperties.PipelineNeverRevives`).
- `RedactionRuns.RedactedStaysHiddenIff`: redaction does not hide for good. Approving the
  source (`RedactionRuns.ApproveReopens`), restoring, accepting, verifying or disputing a
  linked claim, or scanning one can bring it back.
- `IngestionPipeline.IngestGoverned`: a failed run leaves nothing but its failure exactly
  when the text is refused or a statement of the transaction raises. When only leaving the
  transaction raises, everything stays, marked failed
  (`IngestionPipeline.LateFaultKeepsAll`).
- `PipelineProperties.SuccessKeeps`: a run keeps the governance invariant at each of its
  writes exactly when every candidate it saves as a new claim is in range, and an extractor
  may answer one that is not.
- `Lifecycle.TouchKeepsRange`: a touch keeps salience in range exactly when the boost does
  not take it below zero.

## Model

| member | source | states |
|---|---|---|
| Timestamps.TickIsNext | src/feme/ledger.py:57-60 | the bump by one microsecond is the very next instant, and is missing exactly at `datetime.max` |
| Timestamps.PrintOrder | src/feme/utils.py:11-12 | bytewise order of printed timestamps is time order, also when zero microseconds are left out |
| Timestamps.ParsePrint | src/feme/ledger.py:56-60 | reading a printed timestamp gives it back |
| LedgerFraming.Utf8Prefix | src/feme/ledger.py:207-213 | UTF-8 text is recoverable character by character from the hashed bytes |
| LedgerFraming.FrameRecovers | src/feme/ledger.py:207-213 | fields free of 0x1F are recoverable from the hashed bytes, one clean side being enough |
| LedgerFraming.FrameRecoversBut | src/feme/ledger.py:207-213 | one field known from elsewhere may hold anything: the others are recoverable when they are clean |
| LedgerFraming.RecoverableIff | src/feme/ledger.py:207-213 | two or more fields are recoverable from the hashed bytes exactly when none of them holds a 0x1F |
| LedgerFraming.FrameMergesFields | src/feme/ledger.py:207-213 | a 0x1F inside a field leaves the bytes the same when text moves across the field boundary, the step from which the exact condition follows |
| Ledger.NoCycle | src/feme/ledger.py:175-182 | the walk meets a visited row only if two rows share a hash |
| Ledger.Walk | src/feme/ledger.py:175-205 | the walk ends on any rows, visits each at most once, and stops clean only at a leaf; a fork or repeat is reported |
| Ledger.IndexRows | src/feme/ledger.py:134-160 | the first pass reports every hash that does not recompute and every duplicate, and indexes rows by hash and link |
| Ledger.CheckRows | src/feme/ledger.py:120-205 | ok exactly when all hashes recompute, are distinct, and all rows lie on one path from a null (or, scoped, dangling) root; a reported cycle means a duplicate hash |
| LedgerAppend.NewestIsMaximal | src/feme/ledger.py:49-52 | the newest-row query returns a row none is newer than |
| LedgerAppend.NewestIsLast | src/feme/ledger.py:49-52 | in a chain the newest-row query returns the row appended last |
| LedgerAppend.StampAdvances | src/feme/ledger.py:53-63 | whatever the clock returns, the new stamp sorts after the previous one, exactly unless that is `datetime.max` |
| LedgerAppend.SealExtends | src/feme/ledger.py:49-97 | the row inserted extends the project's chain exactly when its newest stamp is not `datetime.max` |
| LedgerAppend.AppendSound | src/feme/ledger.py:22-101 | one append keeps every project's chain linear and ascending, under the same exact condition |
| LedgerAppend.WellChainedAccepted | src/feme/ledger.py:120-205 | a project's linear chain passes the checker |
| LedgerAppend.UnscopedNeedsOneProject | src/feme/ledger.py:162-173 | the check over all projects accepts a sound ledger exactly when at most one project has rows |
| LedgerAppend.LinksDiffer | src/feme/ledger.py:184-193 | an accepted ledger has no fork: no two rows name the same predecessor |
| LedgerAppend.NearlySoundChains | src/feme/ledger.py:120-205 | of a table that appends built, a project's rows are one accepted, unforked chain exactly when at most the last carries `datetime.max` |
| LedgerAppend.AppendNearlySound | src/feme/ledger.py:22-101 | every append keeps that invariant, whatever the stamps |
| LedgerAppend.SealWithin | src/feme/ledger.py:53-63 | a stamp runs at most one microsecond ahead of the clock and of the rows there are |
| LedgerAppend.ForkAfterLatest | src/feme/ledger.py:53-63 | after a row stamped `datetime.max` two appends with an ordinary clock are never accepted |
| LedgerAppend.TamperEvident | src/feme/ledger.py:137-152 | altering a hashed field of any row and keeping its stored hash makes the check fail |
| LedgerAppend.HashPinsFields | src/feme/ledger.py:65-77 | a stored hash pins a row's covered fields exactly when none of them holds a 0x1F |
| LedgerAppend.TamperEvidentIff | src/feme/ledger.py:137-152 | in an accepted ledger no alteration that keeps a row's hash and link passes the check, exactly when no covered field but the link holds a 0x1F |
| LedgerAppend.ActorNotCovered | src/feme/ledger.py:65-77 | changing a row's actor is never noticed |
| LedgerAppend.SeparatorLetsFieldsShift | src/feme/ledger.py:207-213 | with 0x1F in any covered field but the last, text moves into the next field under the same hash |
| LedgerDeletion.AcceptedIff | src/feme/ledger.py:120-205 | a table is accepted exactly when its rows, in some order, are a chain, each naming the one before it |
| LedgerDeletion.AnyReadingOrder | src/feme/ledger.py:122-128 | the verdict does not depend on the order the unordered query returns the rows in |
| LedgerDeletion.ScopedDeletionIff | src/feme/ledger.py:164-170 | what a deletion leaves of an accepted project passes the scoped check exactly when it is a contiguous stretch of the chain |
| LedgerDeletion.UnscopedDeletionIff | src/feme/ledger.py:162-173 | it passes the unscoped check exactly when that stretch begins where the chain does |
| MemoryLedger.MemoryLedger.Append | src/feme/ledger.py:22-110 | the sealed row goes after the newest of its project, a taken id changes nothing, and the table stays sound exactly unless its newest stamp is the maximum |
| MemoryLedger.MemoryLedger.VerifyChain | src/feme/ledger.py:120-205 | ok exactly when the selected rows are one chain; a sound table always passes scoped |
| LedgerProtocol.RunKeeps | src/feme/postgres_db.py:106-113 | every interleaving of lock, read, insert, commit and rollback keeps the protocol invariant and only adds committed rows |
| LedgerProtocol.EveryInterleavingChains | src/feme/ledger.py:43-101 | over every interleaving each project's committed rows form one chain with one null root exactly when at most the last carries `datetime.max`; the scoped check then accepts them and there is no fork |
| LedgerProtocol.RoomIsEnough | src/feme/ledger.py:53-63 | stamps and clock no later than a limit, with as many microseconds left as rows are inserted, are enough for every chain to be accepted |
| LedgerProtocol.UnlockedReadersFork | src/feme/ledger.py:43-48 | without the lock, two rows sealed after the same read are never accepted together |
| SqlLexer.SplitSqlScript | src/feme/postgres_db.py:254-335 | the six-mode flag scanner computes the split defined by the step automaton |
| SqlRoundTrip.SplitLosesOnlySeparators | src/feme/postgres_db.py:254-335 | only top-level semicolons, edge white space and empty statements are lost, and no statement holds a top-level semicolon |
| SqlRoundTrip.StatementsAreFixedPoints | src/feme/postgres_db.py:254-335 | splitting an emitted statement gives just that statement |
| SqlRoundTrip.SplitUndoesJoin | src/feme/postgres_db.py:254-335 | splitting the `;`-join of trimmed non-empty statements returns them exactly when each is free of top-level semicolons and all but the last are lexically closed |
| Placeholders.ConvertQmarkPlaceholders | src/feme/postgres_db.py:229-251 | the loop computes the rewriting: `?` outside quotes becomes `%s`, the rest is kept |
| Placeholders.ConvertIsToggle | src/feme/postgres_db.py:229-251 | the doubled-quote lookahead equals a plain quote toggle |
| Placeholders.ConvertIdempotent | src/feme/postgres_db.py:229-251 | rewriting twice is rewriting once |
| Placeholders.PiecesRewritten | src/feme/postgres_db.py:254-335 | splitting a rewritten script gives the script's pieces, rewritten with the quote mode carried from each to the next: `?` and `%s` mean nothing to the splitter in any mode |
| Placeholders.ConvertCommutesIff | src/feme/postgres_db.py:125-132 | rewriting commutes with splitting exactly when at every `?` the quotes counted from the script's start and from the statement's start agree on whether it is quoted |
| Placeholders.ConvertCommutesWithSplit | src/feme/postgres_db.py:125-132 | so it does on scripts without comments and dollar quotes |
| Placeholders.CommentBreaksCommuting | src/feme/postgres_db.py:125-132 | a concrete script with a comment on which the two do not commute |
| Tokens.FallbackTokenize | src/feme/token_trace.py:33-38 | the matches of `\w+|[^\w\s]` with offsets and numbers |
| Tokens.Tokenization | src/feme/token_trace.py:33-38 | tokens are disjoint maximal words or single symbols in order; everything outside them is white space |
| Tokens.RetokenizeSlice | src/feme/token_trace.py:33-49 | retokenizing a token-aligned slice gives the document's tokens shifted in position and number |
| Tokens.TokenRangeIs | src/feme/claim_extractor.py:1117-1129 | a token range runs from the first to one past the last token overlapping the span |
| Tokens.SliceTokenRange | src/feme/claim_extractor.py:1117-1129 | the range found in the slice, shifted, is the document's range for the absolute span |
| Chunking.ChunkText | src/feme/chunking.py:19-42 | the loop ends for every pair of integers and computes the windows; an error exactly when there are tokens and the overlap is not smaller |
| Chunking.ChunkPlan | src/feme/chunking.py:28-37 | chunk k starts at token k*(max-overlap), is max tokens long or ends at the last, and holds the document's text between its tokens |
| Chunking.ChunkCount | src/feme/chunking.py:28-41 | there are 1+ceil((n-max)/(max-overlap)) chunks when n > max, one when 0 < n <= max |
| Chunking.NeighboursOverlap | src/feme/chunking.py:38-41 | neighbouring chunks share exactly `overlap` tokens |
| Chunking.ChunksAreStretches | src/feme/chunking.py:28-42 | whatever the window sizes, negative overlaps included, each chunk is a stretch of the text at its own offsets, under its place in the list |
| Chunking.ChunksCover | src/feme/chunking.py:28-42 | every token lies in a chunk |
| Chunking.ChunkRetokenizes | src/feme/chunking.py:31-37 | a chunk's text alone retokenizes to the document's tokens shifted |
| Chunking.ChunkTokenRange | src/feme/claim_extractor.py:548-564 | a token range computed in a chunk, shifted, is the document's range of the absolute span |
| Spans.FindExactQuoteSpan | src/feme/spans.py:20-48 | returns the occurrence with exactly the asked number of earlier, possibly overlapping ones; none when there are too few |
| Spans.StartsIdentify | src/feme/spans.py:32-48 | the number of earlier occurrences fixes the position found |
| Spans.ValidIsOccurrence | src/feme/spans.py:51-60 | a span validates exactly when the non-empty quote occurs there with that length |
| Spans.RepairSpanFromQuote | src/feme/spans.py:63-65 | the first occurrence, or none |
| Spans.CountOneIff | src/feme/extractors/repair.py:115-119 | a count of one means one occurrence, in all sources, exactly for quotes without a border |
| ExtractionSchema.NoFaultIff | src/feme/extractors/schema.py:89-192 | the chain of checks passes an entry exactly when it keeps the whole contract |
| ExtractionSchema.ViolationIs | src/feme/extractors/schema.py:56-194 | a payload passes exactly when all entries of its list keep the contract; else the reason names the first that does not |
| SpanRepair.RepairSpanOffsets | src/feme/extractors/repair.py:81-134 | the in-place loop leaves the claim dicts as the repair function says: repaired up to the first failure, untouched from there |
| SpanRepair.RepairClaim | src/feme/extractors/repair.py:101-131 | one claim dict is kept, moved to the first occurrence with its `evidence_span`, or reported |
| SpanRepair.ClaimRepair | src/feme/extractors/repair.py:101-131 | a valid claim is untouched, a moved one is valid and changed only in its offsets, and failure means the count is zero or, if unique, above one |
| SpanRepair.RepairSucceeds | src/feme/extractors/repair.py:92-134 | without an error every quoted claim has a valid span, the valid ones untouched |
| SpanRepair.RepairFails | src/feme/extractors/repair.py:115-123 | an error at claim k leaves earlier claims repaired, k and later unchanged, and k invalid |
| SpanRepair.MovedQuoteOccursOnce | src/feme/extractors/repair.py:115-119 | a moved quote without a border occurs exactly once in the source |
| Sentences.SentenceSpans | src/feme/claim_extractor.py:714-737 | the loop over separator matches computes the sentence spans |
| Sentences.SentenceSpansAre | src/feme/claim_extractor.py:714-737 | sentence spans are in order, disjoint, trimmed, at least twelve long, quote the text, and hold no separator |
| Sentences.NothingElseLeftOut | src/feme/claim_extractor.py:714-737 | a character outside all sentences is white space or in a fragment shorter than twelve |
| ClaimExtraction.InvariantAnchors | src/feme/claim_extractor.py:929-965 | whatever passes the span invariant quotes the document at its absolute offsets |
| ClaimExtraction.HeuristicCandidates | src/feme/claim_extractor.py:244-280 | the loop computes the heuristic candidates |
| ClaimExtraction.StructuredCandidates | src/feme/claim_extractor.py:401-453 | the loop computes the adapter's candidates and first reason |
| ClaimExtraction.ExtractCandidates | src/feme/claim_extractor.py:105-241 | the branching on mode, provider and failures computes the extraction |
| ExtractionProperties.SentenceHoldsSpan | src/feme/claim_extractor.py:255-280 | a sentence's candidate passes the span invariant unchanged |
| ExtractionProperties.BuiltHoldsSpan | src/feme/claim_extractor.py:566-655 | so does the candidate built from an entry |
| ExtractionProperties.HeuristicIsDirect | src/feme/claim_extractor.py:244-280 | the quote search inside the invariant is never needed for heuristic candidates |
| ExtractionProperties.AcceptedIff | src/feme/claim_extractor.py:498-655 | an entry is accepted exactly when its strings, spans, quote and metadata are fit, as the candidate built from it |
| ExtractionProperties.AcceptedSays | src/feme/claim_extractor.py:507-646 | an accepted entry's candidate says what the entry says, trimmed and cut to the column widths, cites the chunk's evidence, and has a known evidence kind |
| ExtractionProperties.AdaptIff | src/feme/claim_extractor.py:431-453 | the adapter reports no reason exactly when it had none and accepts every entry, one candidate each in order |
| ExtractionProperties.NothingDroppedIff | src/feme/claim_extractor.py:401-468 | of any validated dict payload the adapter drops nothing exactly when every item of the list it reads is a dict fit for it and that list is empty only when the validated one is |
| ExtractionProperties.NothingDropped | src/feme/claim_extractor.py:401-468 | so it drops nothing when there is one list |
| ExtractionProperties.AcceptedInRangeIff | src/feme/claim_extractor.py:566-646 | whatever the payload, an accepted entry's candidate is in range exactly when the entry's confidence and salience, read as floats, are |
| ExtractionProperties.AdaptedInRangeIff | src/feme/claim_extractor.py:401-453 | all candidates of an adapted payload are in range exactly when all its entries' numbers are |
| ExtractionProperties.ValidatedInRange | src/feme/extractors/schema.py:143-151 | the candidates of a validated payload with one list have confidence and salience in [0,1] |
| ExtractionProperties.ExtractedInRange | src/feme/claim_extractor.py:105-241 | over all modes, failures and fallbacks the candidates are in range when the payload read has its numbers in range, and after a structured success only then |
| ExtractionProperties.TwoListsDrop | src/feme/claim_extractor.py:461-467 | with both list keys an item that is no dict is dropped and the run still succeeds |
| ExtractionProperties.BareListUnchecked | src/feme/claim_extractor.py:418-453 | a bare list lets a confidence out of range through |
| ExtractionProperties.SecondListUnchecked | src/feme/claim_extractor.py:456-467 | so does the second of two lists, though the payload validates |
| ExtractionProperties.FailedRepairInvalid | src/feme/extractors/repair.py:115-123 | a payload whose repair failed does not validate |
| ExtractionProperties.FailedRepairNeverSucceeds | src/feme/claim_extractor.py:178-203 | a failed span repair ends as a structured success in no mode |
| ExtractionProperties.StrictFailsClosed | src/feme/claim_extractor.py:129-212 | strict mode returns nothing and a reason, or only structured candidates |
| ExtractionProperties.EveryCandidateAnchored | src/feme/claim_extractor.py:105-280 | in every mode and for every answer each candidate quotes the document at its own offsets |
| ExtractionProperties.HeuristicTokensMatch | src/feme/claim_extractor.py:252-261 | a heuristic candidate's absolute token range is the document's for its character span |
| ExtractionProperties.EntryTokensMatch | src/feme/claim_extractor.py:540-564 | so is that of an accepted entry that states no token span |
| EvidenceExtraction.ExtractForEvidence | src/feme/claim_extractor.py:283-398 | the candidates of all chunks of the evidence, in chunk order |
| EvidenceExtraction.IngestedCandidatesAnchored | src/feme/claim_extractor.py:283-398 | every candidate of evidence just ingested quotes the ingested text, whatever the window sizes |
| EvidenceExtraction.CandidatesInRange | src/feme/claim_extractor.py:283-398 | so are all candidates of the evidence when that holds of each chunk |
| WriteGovernor.FindSimilarClaim | src/feme/write_governor.py:289-322 | the loop with its running best computes the best of the compared rows, unless its query raises |
| WriteGovernor.FindSimilarIs | src/feme/write_governor.py:295-322 | that is the first best-scoring live claim of the project, none when there is nothing to compare |
| WriteGovernor.DecideWrite | src/feme/write_governor.py:27-129 | a decision waits for review exactly for what must wait, matches only the nearest live claim and never a contradicted one, and saves only on the score or as preserved evidence; it raises exactly when its query does |
| WriteGovernor.CommitCandidate | src/feme/write_governor.py:131-287 | the tables and the result after a write when no statement raises; without autocommit nothing is committed wherever it stops, with it everything is |
| WriteGovernor.ReviewGate | src/feme/write_governor.py:32-65 | review-required or unasked private material becomes exactly one new claim pending review and touches no other |
| WriteGovernor.CommitEffect | src/feme/write_governor.py:142-162 | only the matched claim changes: merged it gains at most 0.08 and 0.04, by a correction it is superseded and replaced by an active claim |
| WriteGovernor.CommitEndsLive | src/feme/write_governor.py:142-171 | a write touches no claim that is not live, and the claim it ends at is live |
| WriteGovernor.WrittenAsProposed | src/feme/write_governor.py:131-287 | a write adds at most one claim, saying what the candidate says, and, with evidence, one link and one support span at the candidate's offsets for the claim it ended at |
| Contradictions.DetectSymmetric | src/feme/contradiction.py:59-82 | detection is symmetric |
| Contradictions.DetectIrreflexive | src/feme/contradiction.py:59-82 | claims that say the same never contradict |
| Contradictions.RecordContradiction | src/feme/contradiction.py:84-127 | the pair is on record afterwards, once in whatever direction, and a pair that was not there disputes exactly its two claims; without autocommit nothing is committed |
| Contradictions.ScanNewClaim | src/feme/contradiction.py:31-57 | the tables after a scan and the rivals it reports when no statement raises; without autocommit nothing is committed wherever it stops |
| Contradictions.RecordAdds | src/feme/contradiction.py:96-125 | recording adds exactly the pair, whether or not it was there in either direction |
| Contradictions.ScansRecord | src/feme/contradiction.py:31-127 | any series of scans records exactly the conflicting pairs with a scanned claim, once each, and disputes exactly their claims |
| Contradictions.OrderIndependent | src/feme/contradiction.py:31-127 | the order of the scans does not matter |
| Contradictions.AllScanned | src/feme/contradiction.py:31-127 | once all claims are scanned, a pair is on record exactly when the two conflict |
| Contradictions.ScanCovers | src/feme/contradiction.py:31-57 | on any store, after a scan every live rival the claim conflicts with is on record against it |
| Contradictions.ScanLeavesRestIff | src/feme/contradiction.py:36-55 | a scan leaves every claim that is not live alone exactly when the scanned one is missing or live, or all it is detected against is on record |
| Contradictions.ScanOfDormant | src/feme/contradiction.py:36-55 | what a scan makes of each claim that is not live: nothing, unless it is the one scanned and a pair with it is new |
| Contradictions.ScanRevives | src/feme/contradiction.py:36-48 | a scan disputes a claim that is not live when it conflicts with a live one |
| Review.ReviewClaim | src/feme/review.py:57-133 | carried out exactly for the seven actions on a stored claim, on that claim alone: each action gives its status, verifying raises confidence by 0.18 up to one, rejecting caps it at 0.2, nothing else touches it |
| Review.ReviewEvidence | src/feme/review.py:143-215 | carried out exactly for approve and reject on stored evidence: that evidence alone becomes active or rejected, whatever it was |
| Review.ReviewEffect | src/feme/review.py:57-133 | the effect that `ReviewClaim` promises, of every action on every keyed store |
| Review.EvidenceReviewEffect | src/feme/review.py:25-28 | the effect that `ReviewEvidence` promises, redacted evidence not excepted |
| Lifecycle.DecayClaims | src/feme/lifecycle.py:25-80 | the loop of updates equals decaying every active or pending row at once, with its two counts, and only wears them |
| Lifecycle.StaleWithinThirtyRuns | src/feme/lifecycle.py:37-54 | thirty runs of the default policy make every old untouched claim stale |
| Lifecycle.DecayOnlyWears | src/feme/lifecycle.py:37-60 | decay lowers salience by the step or to zero, and makes stale only what is old enough and no longer salient |
| Lifecycle.TouchClaim | src/feme/lifecycle.py:82-93 | one claim's salience alone changes, by the boost and to one at most, and stays in [0,1] exactly when the boost does not take it below zero |
| Lifecycle.TouchKeepsRange | src/feme/lifecycle.py:82-93 | the effect that `TouchClaim` promises, for every boost |
| Retention.RedactEvidence | src/feme/retention.py:15-115 | all texts of the evidence replaced and rehashed, every linked claim archived, the source marked, or an error and no change |
| Retention.ArchiveProjectClaims | src/feme/retention.py:117-146 | every claim of the project not yet archived or rejected is archived, and counted; other projects' claims are as they were |
| Retention.RedactEffect | src/feme/retention.py:39-115 | no snapshot, chunk or span of the evidence holds its text, exactly the linked claims are archived without salience, links, supports and contradictions stay |
| RedactionRuns.SourceStepIff | src/feme/review.py:158-190 | of the nine operations only approving it brings redacted or rejected evidence back |
| RedactionRuns.ClaimStepIff | src/feme/review.py:16-24 | of the nine operations exactly four review actions on it, and a scan of it that finds a contradiction not on record, bring a claim back that is not live |
| RedactionRuns.RedactedStaysHiddenIff | src/feme/retention.py:18-24 | over every run after a redaction, the source and the claims linked to it stay hidden exactly when no step is one of those |
| RedactionRuns.RedactedNeverFound | src/feme/retention.py:18-24 | until such a step no search with the default statuses, in any mode, returns a chunk of the evidence or a claim that was linked to it |
| RedactionRuns.ApproveReopens | src/feme/review.py:158-190 | redacted evidence can be approved, and a public search then admits its chunks |
| EvidenceIngest.IngestText | src/feme/evidence.py:33-259 | the job, source, snapshot, chunk, span and embedding rows of a new text; for a duplicate nothing, or a job row that says so when duplicates were not looked for; nothing for a disabled source or too large an overlap; with autocommit the rows it wrote are committed, without it only a missing project's row, wherever it stops |
| EvidenceIngest.IngestTwice | src/feme/evidence.py:77-90 | ingesting the same text into the same project again finds the first source and changes nothing |
| EvidenceIngest.IngestStores | src/feme/evidence.py:105-209 | new evidence is stored once, pending review, with its text, and every chunk's row, span and embedding is true to the text, whatever the window sizes |
| Integrity.RunIntegrity | src/feme/integrity.py:13-155 | the loops collect the issues in order, and ok means none |
| Integrity.OnlyOpenQuestions | src/feme/integrity.py:13-130 | in a kept state the checker reports only unsupported claims and unresolved contradictions |
| Integrity.UnsupportedReported | src/feme/integrity.py:65-81 | a claim is reported unsupported exactly when it is live, of the project, and has no link |
| GovernanceRuns.ClaimsMapped | src/feme/write_governor.py:337-346 | an update that keeps what claims say and their ranges keeps the whole invariant |
| GovernanceRuns.CommitKeeps | src/feme/write_governor.py:131-450 | every write keeps ranges, embeddings, and links one to one with support spans |
| GovernanceRuns.CommitKeepsIff | src/feme/write_governor.py:131-287 | a write of any candidate loses nothing, and keeps the invariant exactly when it saves no new claim or the candidate is in range |
| GovernanceRuns.ScanKeeps | src/feme/contradiction.py:31-127 | every scan keeps the invariant |
| GovernanceRuns.RedactKeeps | src/feme/retention.py:39-82 | redaction keeps every hash and every span's text in step with its chunk |
| GovernanceRuns.IngestKeeps | src/feme/evidence.py:105-209 | ingestion keeps hashes, keys and one source for each project and text |
| GovernanceRuns.StepKeeps | src/feme/review.py:76-91 | each of the nine operations keeps the invariant and loses nothing |
| GovernanceRuns.RunKeeps | src/feme/write_governor.py:131-450 | over every run claims are never deleted, what they say never changes, confidence and salience stay in [0,1], links and support spans stay one to one |
| GovernanceRuns.RunReportsOnlyOpenQuestions | src/feme/integrity.py:16-130 | after every run from an empty store the checker reports only unsupported claims and unresolved contradictions |
| GovernanceRuns.RunReportsUnsupportedIff | src/feme/integrity.py:65-81 | over runs a claim is reported unsupported exactly when it is live, of the project, and no write with evidence ended at it |
| GovernanceRuns.LinkedIff | src/feme/write_governor.py:256-283 | over runs a claim is linked exactly when it was at the start or a write with evidence ended at it |
| GovernanceRuns.LinkedStaysLinked | src/feme/integrity.py:65-81 | a claim once linked is never reported unsupported again |
| GovernanceRuns.CommitLinks | src/feme/write_governor.py:256-283 | a write with evidence leaves the claim it ends at linked |
| IngestionPipeline.IngestGoverned | src/feme/runtime_pipeline.py:48-230 | a run finishes exactly when the text is accepted and neither a statement nor leaving the transaction raises, in the state of the run without faults; one that raises leaves just the failed job row and one `ingestion_failed` event exactly when the text is refused or a statement of the transaction raises, and everything, marked failed, exactly when only leaving does; less is recorded exactly when the handler raises too; every chain of the ledger stands in any case |
| IngestionPipeline.Transaction | src/feme/runtime_pipeline.py:52-179 | nothing of the transaction is committed before its last statement, and it then commits the fault-free state; it stops early exactly for a fault or a refused text |
| IngestionPipeline.WriteClaims | src/feme/runtime_pipeline.py:121-142 | the loop commits, records and scans each candidate in order, any statement of the three may raise, and none is committed |
| IngestionPipeline.RecordFailure | src/feme/runtime_pipeline.py:192-230 | the handler leaves the failed job row and the event when nothing of it raises, nothing exactly when a statement for the row does, the row alone when what follows does |
| IngestionPipeline.AppendEvent | src/feme/ledger.py:41-101 | the row is appended, and committed exactly when the caller lets append commit and nothing raises |
| IngestionPipeline.AutocommitLeaks | src/feme/ledger.py:100-101 | were a single append to commit for itself, a fault right after it would leave a state that no failed run may leave |
| IngestionPipeline.EarlyFaultLeavesFailure | src/feme/runtime_pipeline.py:191-230 | a fault in the first statement of the transaction alone, the project existing, leaves the failed job row and its event and nothing else |
| IngestionPipeline.LateFaultKeepsAll | src/feme/postgres_db.py:106-113 | leaving the transaction raising alone leaves the whole run committed and marked failed |
| Connections.Connection.Exit | src/feme/postgres_db.py:106-113 | leaving the block commits what the transaction saw, or, when an exception came out of it or leaving itself raises, restores what was committed |
| Connections.Connection.EnsureProject | src/feme/projects.py:11-32 | a missing project's row is committed on its own, whatever becomes of the transaction |
| PipelineProperties.EventsInOrder | src/feme/runtime_pipeline.py:69-178 | success adds exactly started, evidence ingested, one `claim_written` for each matched write, clusters when rebuilt, finished, in that order |
| PipelineProperties.LedgerStillVerifies | src/feme/runtime_pipeline.py:191-230 | however a run ends, the handler failing included, every project's rows are one chain exactly when at most the last carries `datetime.max`, and the check then accepts it |
| PipelineProperties.RunLeavesRoom | src/feme/runtime_pipeline.py:191-230 | stamps and clock no later than a limit, with room for the rows a run can add, are enough for that, however it ends |
| PipelineProperties.FinishedJobsAre | src/feme/runtime_pipeline.py:160-163 | success leaves the run's job row finished and the ingestor's, saved or found a duplicate |
| PipelineProperties.WrittenIsScanned | src/feme/runtime_pipeline.py:121-142 | a candidate that ends at a claim has every live rival it conflicts with on record afterwards |
| PipelineProperties.PipelineNeverRevives | src/feme/runtime_pipeline.py:121-142 | every claim the pipeline scans is live, so a finished run leaves each claim that was not live exactly as it was |
| PipelineProperties.SuccessKeeps | src/feme/runtime_pipeline.py:84-142 | the writes of a finished run keep the governance invariant throughout exactly when every candidate saved as a new claim is in range; the run then keeps it and loses nothing |
| PipelineProperties.ExtractedRunKeeps | src/feme/runtime_pipeline.py:100-142 | so does every run whose extractor answers numbers in range, in any mode and with any fallback |
| PipelineProperties.NewQuotesAreInTheText | src/feme/write_governor.py:377-413 | every support span a finished run adds quotes the text at its offsets, its candidates being anchored |
| PipelineProperties.ExtractedQuotesAreInTheText | src/feme/runtime_pipeline.py:100-141 | so it does with the extractor's own candidates, in any mode and whatever it answers |
| Results.SortedIs | src/feme/retrieval.py:64-66 | sorting keeps the results and makes scores fall |
| Results.SortedStable | src/feme/retrieval.py:64-66 | results with equal scores keep their order |
| Results.TopIsBest | src/feme/retrieval.py:221 | of the first n sorted results none scores less than one left out |
| Rerank.DiversifyResults | src/feme/rerank.py:7-40 | the loop computes the greedy selection |
| Rerank.DiversifySelects | src/feme/rerank.py:19-40 | min(top_k, n) results, none taken more often than it was there |
| Rerank.EachPickIsBest | src/feme/rerank.py:25-39 | each pick is the first maximiser of the MMR score over what remains |
| Rerank.RelevanceKeepsPrefix | src/feme/rerank.py:19-40 | on score-sorted input relevance weight one keeps exactly the sorted prefix |
| Retrieval.DedupeResults | src/feme/retrieval.py:389-398 | the loop keeps the first result of every key |
| Retrieval.DedupeIs | src/feme/retrieval.py:389-398 | every key is represented once and nothing is added |
| Retrieval.Search | src/feme/retrieval.py:19-77 | the results of a search and the touched tables, none for an invalid mode |
| Retrieval.FoundAdmitted | src/feme/retrieval.py:29-67 | every result is a claim or chunk of the project with an admitted status |
| Retrieval.FoundOnce | src/feme/retrieval.py:64-67 | at most top_k results, none twice |
| Retrieval.BestClaimsReturned | src/feme/retrieval.py:79-221 | a claim of the project scoring above 0.10 is returned, unless top_k that score no less are |
| Retrieval.BestChunksReturned | src/feme/retrieval.py:223-339 | the same of chunks above 0.12 |
| Retrieval.FewHitsAllFound | src/feme/retrieval.py:43-67 | when the hits are no more than top_k, every one is represented in the answer |
| ContextBuilder.Build | src/feme/context_builder.py:15-112 | the packet built from the search, and the tables with the found claims touched |
| ContextBuilder.PackResults | src/feme/context_builder.py:38-95 | the loop computes the packing |
| ContextBuilder.PackingIs | src/feme/context_builder.py:38-95 | packing splits the results in order, stays within a non-negative budget, and what it left out for the budget still does not fit |
| ContextBuilder.LeftOutIsHidden | src/feme/context_builder.py:78-92 | whatever is left out for another reason than the budget is a chunk whose source may not be shown |
| ContextBuilder.PublicLeavesOutOnlyForBudget | src/feme/context_builder.py:78-92 | in public mode only the budget leaves anything out |
| AnswerVerifier.VerifyContext | src/feme/verifier.py:18-101 | blocked exactly when something is pending, high risk exactly when a claim's status is unsafe, ok exactly without issues |
| AnswerVerifier.PublicItemsPublishable | src/feme/context_builder.py:24-110 | every item of a public packet is an active claim or a chunk of active evidence |
| AnswerVerifier.PublicReport | src/feme/verifier.py:18-101 | verifying a public packet of any store finds nothing pending or unsafe; its only issues are claims without support and chunks under an empty evidence id, each reported exactly when the packet holds one |
| AnswerVerifier.BuildAndVerify | src/feme/api.py:415-431 | in public mode, whatever the store holds, publication is not blocked, risk is not high, and the issues are exactly the claims without support and chunks under an empty evidence id that the packet holds |

## Left out

- The database engines: SQLite appends are sequential here, since the advisory lock exists only in the Postgres branch; Postgres reads are READ COMMITTED, and text compares bytewise (the C collation).
- Timestamps in spellings `isoformat` does not print: `Timestamps.Parse` reads none of them, and the ledger then behaves as the code does on an unreadable stamp.
- SHA-256, the hashing embedder, full-text ranking and floating-point rounding: functions left open and real numbers.
- JSON text parsing, `attempt_repair` and provider calls: a provider's answer is the payload after them; an exception is recorded without its class name.
- Numbers that do not fit a float, NaN and infinities in payloads.
- The texts of decision reasons and error messages, and the rows of the audit, lifecycle, review-action and retention logs.
- Sentence patterns, entities, timeline, sensitivity scores, clusters and capsules: the sentence patterns are a function left open, of the clusters only their ledger event is kept.
- Columns for updates and validity periods, and the order of rows within one claim's supporting evidence.
- Lifecycle.DecayClaims: relies on the primary key, so a database that holds two claims under one id is not covered.
- Retention.ArchiveProjectClaims: relies on the primary key in the same way.
- SpanRepair.RepairSpanOffsets: takes the separate objects a JSON decoder makes, not a list that shares one claim dict between entries.
- ContextBuilder.Build: takes lower-casing as a parameter that leaves `public` and `internal` alone, as it does.
- EvidenceIngest.IngestText: leaves out the entity, timeline, registry and full-text rows; their statements can still raise.
- IngestionPipeline.Transaction: extraction is one statement; the code inserts an audit row for each chunk and swallows that insert's exception unless the setting requires the audit (src/feme/claim_extractor.py:361-393), so a run can finish although that statement raised.
- Foreign keys: a statement that breaks one is a statement that raises; the results on runs also cover stores that hold dangling ids.
- Joins over chunks, spans and sources: one span for each chunk and one source for each id, as ingestion writes them.
- Identifiers that repeat: ids are drawn at random in the code, and the results on runs take them as new.
- Autocommit on a connection that was not passed in: leaving its own block commits anyway.
- FastAPI and Typer layers, authentication, configuration, the file vault, backup, export, migrations and evaluation.
