/** `extract_candidates_for_evidence`: the candidates of every chunk of one piece of evidence. */
module EvidenceExtraction {
  import opened Options
  import opened Text
  import opened Tokens
  import opened Chunking
  import opened Candidates
  import opened ClaimExtraction
  import opened ExtractionProperties
  import Store
  import opened EvidenceIngest
  import Retention
  import Integrity

  /** How candidates are extracted, and what the structured extractor answers for each chunk. */
  datatype Extractor = Extractor(
    env: Env, mode: string, answer: ChunkRow -> Answer, allowRepair: bool, reviewRequired: bool)

  function SpanOfChunk(spans: seq<Store.TokenSpan>, chunkId: string): Option<string> {
    if spans == [] then None
    else if spans[0].chunkId == chunkId then Some(spans[0].id)
    else SpanOfChunk(spans[1..], chunkId)
  }

  /** A chunk joined with its span and its source's registry row. */
  function Joined(x: Extractor, spans: seq<Store.TokenSpan>): Store.TextChunk -> ChunkRow {
    (c: Store.TextChunk) => ChunkRow(c.id, c.evidenceId, c.text, c.charStart, c.tokenStart, c.sourceQuality,
                                     SpanOfChunk(spans, c.id), x.reviewRequired)
  }

  function ChunksFor(t: Store.Tables, evidenceId: string): seq<Store.TextChunk> {
    Store.Filter(t.chunks, (c: Store.TextChunk) => c.evidenceId == evidenceId)
  }

  function RowsFor(x: Extractor, t: Store.Tables, evidenceId: string): seq<ChunkRow> {
    Store.Mapped(ChunksFor(t, evidenceId), Joined(x, t.spans))
  }

  function OfChunk(x: Extractor, row: ChunkRow): seq<Candidate> {
    Extract(x.env, row, ParseMode(x.mode), x.answer(row), x.allowRepair).candidates
  }

  function OfRows(x: Extractor, rows: seq<ChunkRow>): seq<Candidate> {
    if rows == [] then [] else OfRows(x, rows[..|rows| - 1]) + OfChunk(x, rows[|rows| - 1])
  }

  function CandidatesFor(x: Extractor, t: Store.Tables, evidenceId: string): seq<Candidate> {
    OfRows(x, RowsFor(x, t, evidenceId))
  }

  method ExtractForEvidence(x: Extractor, db: Store.Database, evidenceId: string) returns (candidates: seq<Candidate>)
    ensures candidates == CandidatesFor(x, db.View(), evidenceId)
  {
    hide Extract, ParseMode;
    var rows := RowsFor(x, db.View(), evidenceId);
    candidates := [];
    assert rows[..0] == [];
    for k := 0 to |rows|
      invariant candidates == OfRows(x, rows[..k])
    {
      var r := ExtractCandidates(x.env, rows[k], x.mode, x.answer(rows[k]), x.allowRepair);
      assert rows[..k + 1][..k] == rows[..k];
      candidates := candidates + r.candidates;
    }
    assert rows[..|rows|] == rows;
  }

  // ---------------------------------------------------------------- evidence just ingested

  lemma {:induction false} FilterConcat<T(!new)>(a: seq<T>, b: seq<T>, keep: T -> bool)
    ensures Store.Filter(a + b, keep) == Store.Filter(a, keep) + Store.Filter(b, keep)
  {
    if a == [] {
      assert a + b == b;
    } else {
      assert (a + b)[1..] == a[1..] + b;
      FilterConcat(a[1..], b, keep);
    }
  }

  lemma {:induction false} FilterAll<T(!new)>(rows: seq<T>, keep: T -> bool)
    requires forall x :: x in rows ==> keep(x)
    ensures Store.Filter(rows, keep) == rows
  {
    if rows != [] {
      FilterAll(rows[1..], keep);
      assert rows == [rows[0]] + rows[1..];
    }
  }

  /** The chunks of evidence just ingested are those of its text. */
  lemma IngestedChunks(word: WordClass, sha: Retention.Sha, t: Store.Tables, text: string, src: Source, ids: NewIds)
    requires Ingest(word, sha, t, text, src, ids).1.Ingested?
    requires forall c :: c in t.chunks ==> c.evidenceId != ids.evidence
    ensures ChunksOf(word, text, src.maxTokens, src.overlapTokens).Chunked?
    ensures ChunksFor(Ingest(word, sha, t, text, src, ids).0, ids.evidence)
            == Store.Mapped(ChunksOf(word, text, src.maxTokens, src.overlapTokens).chunks, ChunkRowOf(ids, src.quality))
  {
    hide ChunksOf, FindEvidence, Store.Mapped, Store.Filter;
    var added := Store.Mapped(
      ChunksOf(word, text, src.maxTokens, src.overlapTokens).chunks, ChunkRowOf(ids, src.quality));
    var keep := (c: Store.TextChunk) => c.evidenceId == ids.evidence;
    FilterConcat(t.chunks, added, keep);
    Integrity.FilterNone(t.chunks, keep);
    FilterAll(added, keep);
  }

  lemma {:induction false} RowsAnchored(x: Extractor, rows: seq<ChunkRow>, text: string)
    requires forall k :: 0 <= k < |rows| ==> SliceOf(rows[k], text)
    ensures forall c :: c in OfRows(x, rows) ==> Anchored(c, text)
  {
    hide Extract, ParseMode, Anchored, SliceOf;
    if rows != [] {
      var last := rows[|rows| - 1];
      RowsAnchored(x, rows[..|rows| - 1], text);
      EveryCandidateAnchored(x.env, last, ParseMode(x.mode), x.answer(last), x.allowRepair, text);
    }
  }

  /** Drafts, and the numbers of every payload adapted for a chunk of the evidence, lie in [0,1]. */
  ghost predicate NumbersInRange(x: Extractor, t: Store.Tables, evidenceId: string) {
    && DraftsInRange(x.env)
    && forall row :: row in RowsFor(x, t, evidenceId) ==>
         UnitEntries(x.env, row, ParseMode(x.mode), x.answer(row), x.allowRepair)
  }

  lemma {:induction false} RowsInRange(x: Extractor, rows: seq<ChunkRow>)
    requires DraftsInRange(x.env)
    requires forall row :: row in rows ==> UnitEntries(x.env, row, ParseMode(x.mode), x.answer(row), x.allowRepair)
    ensures forall c :: c in OfRows(x, rows) ==> InRange(c)
  {
    hide Extract, ParseMode, InRange, UnitEntries, DraftsInRange;
    if rows != [] {
      var last := rows[|rows| - 1];
      RowsInRange(x, rows[..|rows| - 1]);
      ExtractedInRange(x.env, last, ParseMode(x.mode), x.answer(last), x.allowRepair);
    }
  }

  /** Then every candidate of the evidence is in range. */
  lemma CandidatesInRange(x: Extractor, t: Store.Tables, evidenceId: string)
    requires NumbersInRange(x, t, evidenceId)
    ensures forall c :: c in CandidatesFor(x, t, evidenceId) ==> InRange(c)
  {
    hide OfRows, RowsFor, UnitEntries, InRange, DraftsInRange;
    RowsInRange(x, RowsFor(x, t, evidenceId));
  }

  /** Every candidate extracted from evidence just ingested quotes the text at its own offsets. */
  lemma IngestedCandidatesAnchored(x: Extractor, sha: Retention.Sha, t: Store.Tables, text: string, src: Source,
      ids: NewIds)
    requires Ingest(x.env.word, sha, t, text, src, ids).1.Ingested?
    requires forall c :: c in t.chunks ==> c.evidenceId != ids.evidence
    ensures forall c :: c in CandidatesFor(x, Ingest(x.env.word, sha, t, text, src, ids).0, ids.evidence) ==>
              Anchored(c, text)
  {
    hide Ingest, ChunksOf, OfRows, SliceOf, Anchored;
    var n := Ingest(x.env.word, sha, t, text, src, ids).0;
    IngestedChunks(x.env.word, sha, t, text, src, ids);
    var chunks := ChunksOf(x.env.word, text, src.maxTokens, src.overlapTokens).chunks;
    var rows := RowsFor(x, n, ids.evidence);
    forall k | 0 <= k < |rows| ensures SliceOf(rows[k], text) {
      RowIsSlice(rows[k], x.env.word, text, src.maxTokens, src.overlapTokens, k);
    }
    RowsAnchored(x, rows, text);
  }
}
