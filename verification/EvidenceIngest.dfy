/** `EvidenceIngestor.ingest_text`: deduplication, then the source, snapshot, chunk and span rows. */
module EvidenceIngest {
  import opened Options
  import opened Text
  import opened Tokens
  import opened Chunking
  import opened Store
  import opened Connections
  import opened Retention

  /** The identifiers drawn for one ingestion. */
  datatype NewIds = NewIds(job: string, evidence: string, snapshot: string, chunk: nat -> string, span: nat -> string)

  /**
   * What one call is given besides the text: the source, the registry's answer, the window sizes,
   * whether duplicates are looked for.
   */
  datatype Source = Source(
    project: string, sourceType: string, enabled: bool, quality: real, maxTokens: int, overlapTokens: int, now: string,
    deduplicate: bool)

  datatype IngestResult =
    | Ingested(evidenceId: string)
    | Duplicate(evidenceId: string)
    | SourceDisabled
    | OverlapTooLarge

  /** The evidence row of this project and text; the unique index leaves at most one. */
  function FindEvidence(rows: seq<Evidence>, project: string, sha256: string): (r: Option<Evidence>)
    ensures r.Some? ==> r.value in rows && r.value.projectId == project && r.value.sha256 == sha256
    ensures r.None? ==> forall e :: e in rows ==> !(e.projectId == project && e.sha256 == sha256)
  {
    if rows == [] then None
    else if rows[0].projectId == project && rows[0].sha256 == sha256 then Some(rows[0])
    else FindEvidence(rows[1..], project, sha256)
  }

  function ChunkRowOf(ids: NewIds, quality: real): Chunk -> TextChunk {
    (c: Chunk) => TextChunk(ids.chunk(c.index), ids.evidence, ids.snapshot, c.index, c.charStart, c.charEnd,
                            c.tokenStart, c.tokenEnd, c.text, c.tokenCount, 0.5, quality)
  }

  function SpanRowOf(sha: Sha, ids: NewIds): Chunk -> TokenSpan {
    (c: Chunk) => TokenSpan(ids.span(c.index), ids.evidence, ids.chunk(c.index), c.charStart, c.charEnd,
                            c.tokenStart, c.tokenEnd, sha(c.text), c.text)
  }

  function OwnerOf(ids: NewIds): Chunk -> Owner {
    (c: Chunk) => OfChunk(ids.chunk(c.index))
  }

  function WithChunks(sha: Sha, t: Tables, chunks: seq<Chunk>, ids: NewIds, quality: real): Tables {
    t.(chunks := t.chunks + Mapped(chunks, ChunkRowOf(ids, quality)),
       spans := t.spans + Mapped(chunks, SpanRowOf(sha, ids)),
       embeddings := t.embeddings + Mapped(chunks, OwnerOf(ids)))
  }

  function WithSource(sha: Sha, t: Tables, text: string, src: Source, ids: NewIds): Tables {
    t.(evidence := t.evidence
      + [Evidence(ids.evidence, src.project, src.sourceType, sha(text), src.now, EvidencePending)],
       snapshots := t.snapshots + [Snapshot(ids.snapshot, ids.evidence, text, sha(text))])
  }

  /** `ingest_text`. Too large an overlap is found before anything else, a disabled source before the duplicate. */
  function Ingest(word: WordClass, sha: Sha, t: Tables, text: string, src: Source, ids: NewIds): (Tables, IngestResult)
  {
    match ChunksOf(word, text, src.maxTokens, src.overlapTokens)
    case OverlapNotSmaller => (t, OverlapTooLarge)
    case Chunked(chunks) =>
      if !src.enabled then (t, SourceDisabled)
      else match FindEvidence(t.evidence, src.project, sha(text))
        case Some(e) => (t, Duplicate(e.id))
        case None =>
          (WithChunks(sha, WithSource(sha, t, text, src, ids), chunks, ids, src.quality), Ingested(ids.evidence))
  }

  function JobMarked(id: string, status: JobStatus, evidenceId: string): Job -> Job {
    (j: Job) => if j.id == id then j.(status := status, evidenceId := Some(evidenceId)) else j
  }

  /**
   * The job rows: none for a duplicate that was looked for; otherwise the call's own
   * row, marked saved, or marked a duplicate when the unique index kept the source out.
   */
  function IngestJobs(jobs: seq<Job>, src: Source, ids: NewIds, r: IngestResult): seq<Job> {
    var started := jobs + [Job(ids.job, src.project, JobStarted, None)];
    match r
    case Ingested(e) => Mapped(started, JobMarked(ids.job, EvidenceSaved, e))
    case Duplicate(e) => if src.deduplicate then jobs else Mapped(started, JobMarked(ids.job, DuplicateFound, e))
    case _ => jobs
  }

  /**
   * `ingest_text`, any statement of which may raise. Without `autocommit` nothing of
   * it is committed but a missing project's row, which has a connection of its own.
   */
  method IngestText(word: WordClass, sha: Sha, con: Connection, text: string, src: Source, ids: NewIds,
      autocommit: bool)
    returns (ok: bool, r: IngestResult)
    modifies con`executed, con`tables, con`jobs, con`projects, con`durable
    ensures con.executed >= old(con.executed) && (ok <==> !Faulty(con.raises, old(con.executed), con.executed))
    ensures ok ==> (con.tables, r) == Ingest(word, sha, old(con.tables), text, src, ids)
    ensures ok ==> con.jobs == IngestJobs(old(con.jobs), src, ids, r)
    ensures !autocommit ==> con.durable == old(con.durable) || con.durable == WithProject(old(con.durable), src.project)
    ensures !autocommit && con.durable == old(con.durable) ==> con.projects == old(con.projects)
    ensures ok && autocommit && (r.Ingested? || (r.Duplicate? && !src.deduplicate)) ==> con.durable == con.Seen()
  {
    hide WithChunks, WithSource, Mapped, ChunksOf;
    r := OverlapTooLarge;
    ok := con.EnsureProject(src.project);
    if !ok {
      return;
    }
    var result := ChunkText(word, text, src.maxTokens, src.overlapTokens);
    if result.OverlapNotSmaller? {
      return;
    }
    r := SourceDisabled;
    ok := con.Execute();
    if !ok || !src.enabled {
      return;
    }
    var existing := FindEvidence(con.tables.evidence, src.project, sha(text));
    if src.deduplicate {
      ok := con.Execute();
      if !ok {
        return;
      }
      if existing.Some? {
        r := Duplicate(existing.value.id);
        return;
      }
    }
    if existing.Some? {
      ok := InsertAgain(con, src, ids.job, existing.value.id, autocommit);
      r := Duplicate(existing.value.id);
    } else {
      ok := InsertText(sha, con, text, src, ids, result.chunks, autocommit);
      r := Ingested(ids.evidence);
    }
  }

  /** The rows of a new text. */
  method InsertText(sha: Sha, con: Connection, text: string, src: Source, ids: NewIds, chunks: seq<Chunk>,
      autocommit: bool)
    returns (ok: bool)
    modifies con`executed, con`tables, con`jobs, con`durable
    ensures con.executed >= old(con.executed) && (ok <==> !Faulty(con.raises, old(con.executed), con.executed))
    ensures ok ==>
              con.tables == WithChunks(sha, WithSource(sha, old(con.tables), text, src, ids), chunks, ids, src.quality)
    ensures ok ==> con.jobs == IngestJobs(old(con.jobs), src, ids, Ingested(ids.evidence))
    ensures !autocommit ==> con.durable == old(con.durable)
    ensures ok && autocommit ==> con.durable == con.Seen()
  {
    hide WithChunks, WithSource, Mapped;
    ok := con.Execute();
    if !ok {
      return;
    }
    con.jobs := con.jobs + [Job(ids.job, src.project, JobStarted, None)];
    ok := con.Execute();
    if !ok {
      return;
    }
    ok := InsertSource(sha, con, text, src, ids);
    if !ok {
      return;
    }
    ok := InsertChunks(sha, con, chunks, ids, src.quality);
    if !ok {
      return;
    }
    ok := con.Execute();
    if ok && autocommit {
      ok := con.Commit();
    }
  }

  /** A text already there, not looked for: the unique index keeps the source out, and the job says so. */
  method InsertAgain(con: Connection, src: Source, jobId: string, evidenceId: string, autocommit: bool)
    returns (ok: bool)
    modifies con`executed, con`jobs, con`durable
    ensures con.executed >= old(con.executed) && (ok <==> !Faulty(con.raises, old(con.executed), con.executed))
    ensures ok ==>
              con.jobs == Mapped(
                old(con.jobs) + [Job(jobId, src.project, JobStarted, None)],
                JobMarked(jobId, DuplicateFound, evidenceId))
    ensures !autocommit ==> con.durable == old(con.durable)
    ensures ok && autocommit ==> con.durable == con.Seen()
  {
    hide Mapped;
    ok := con.Execute();
    if !ok {
      return;
    }
    con.jobs := con.jobs + [Job(jobId, src.project, JobStarted, None)];
    ok := con.Execute();
    if !ok {
      return;
    }
    ok := con.Execute();
    if !ok {
      return;
    }
    ok := con.Execute();
    if !ok {
      return;
    }
    con.jobs := Mapped(con.jobs, JobMarked(jobId, DuplicateFound, evidenceId));
    if autocommit {
      ok := con.Commit();
    }
  }

  /** The source row, read back, the snapshot, and the job marked. */
  method InsertSource(sha: Sha, con: Connection, text: string, src: Source, ids: NewIds) returns (ok: bool)
    modifies con`executed, con`tables, con`jobs
    ensures con.executed >= old(con.executed) && (ok <==> !Faulty(con.raises, old(con.executed), con.executed))
    ensures ok ==> con.tables == WithSource(sha, old(con.tables), text, src, ids)
    ensures ok ==> con.jobs == Mapped(old(con.jobs), JobMarked(ids.job, EvidenceSaved, ids.evidence))
  {
    con.tables := con.tables.(evidence := con.tables.evidence
      + [Evidence(ids.evidence, src.project, src.sourceType, sha(text), src.now, EvidencePending)]);
    ok := con.Execute();
    if !ok {
      return;
    }
    ok := con.Execute();
    if !ok {
      return;
    }
    con.tables := con.tables.(snapshots := con.tables.snapshots
      + [Snapshot(ids.snapshot, ids.evidence, text, sha(text))]);
    ok := con.Execute();
    if ok {
      con.jobs := Mapped(con.jobs, JobMarked(ids.job, EvidenceSaved, ids.evidence));
    }
  }

  /** The chunk, search, span and embedding rows, one chunk after another. */
  method InsertChunks(sha: Sha, con: Connection, chunks: seq<Chunk>, ids: NewIds, quality: real) returns (ok: bool)
    modifies con`executed, con`tables
    ensures con.executed >= old(con.executed) && (ok <==> !Faulty(con.raises, old(con.executed), con.executed))
    ensures ok ==> con.tables == WithChunks(sha, old(con.tables), chunks, ids, quality)
  {
    ghost var was := con.tables;
    ok := true;
    assert chunks[..0] == [];
    for k := 0 to |chunks|
      invariant con.executed >= old(con.executed) && !Faulty(con.raises, old(con.executed), con.executed)
      invariant ok && con.tables == WithChunks(sha, was, chunks[..k], ids, quality)
    {
      ok := InsertChunk(sha, con, chunks[k], ids, quality);
      if !ok {
        return;
      }
      WithNext(sha, was, chunks, k, ids, quality);
    }
    assert chunks[..|chunks|] == chunks;
  }

  method InsertChunk(sha: Sha, con: Connection, chunk: Chunk, ids: NewIds, quality: real) returns (ok: bool)
    modifies con`executed, con`tables
    ensures con.executed >= old(con.executed) && (ok <==> !Faulty(con.raises, old(con.executed), con.executed))
    ensures ok ==> con.tables == WithChunk(sha, old(con.tables), chunk, ids, quality)
  {
    ok := con.Execute();
    if !ok {
      return;
    }
    con.tables := con.tables.(chunks := con.tables.chunks + [ChunkRowOf(ids, quality)(chunk)]);
    ok := con.Execute();
    if !ok {
      return;
    }
    ok := con.Execute();
    if !ok {
      return;
    }
    con.tables := con.tables.(spans := con.tables.spans + [SpanRowOf(sha, ids)(chunk)]);
    ok := con.Execute();
    if ok {
      con.tables := con.tables.(embeddings := con.tables.embeddings + [OwnerOf(ids)(chunk)]);
    }
  }

  function WithChunk(sha: Sha, t: Tables, chunk: Chunk, ids: NewIds, quality: real): Tables {
    t.(chunks := t.chunks + [ChunkRowOf(ids, quality)(chunk)],
       spans := t.spans + [SpanRowOf(sha, ids)(chunk)],
       embeddings := t.embeddings + [OwnerOf(ids)(chunk)])
  }

  lemma WithNext(sha: Sha, was: Tables, chunks: seq<Chunk>, k: nat, ids: NewIds, quality: real)
    requires k < |chunks|
    ensures WithChunk(sha, WithChunks(sha, was, chunks[..k], ids, quality), chunks[k], ids, quality)
            == WithChunks(sha, was, chunks[..k + 1], ids, quality)
  {
    MappedNext(was.chunks, chunks, k, ChunkRowOf(ids, quality));
    MappedNext(was.spans, chunks, k, SpanRowOf(sha, ids));
    MappedNext(was.embeddings, chunks, k, OwnerOf(ids));
  }

  lemma MappedNext<U>(before: seq<U>, chunks: seq<Chunk>, k: nat, f: Chunk -> U)
    requires k < |chunks|
    ensures before + Mapped(chunks[..k + 1], f) == before + Mapped(chunks[..k], f) + [f(chunks[k])]
  {
    assert Mapped(chunks[..k + 1], f) == Mapped(chunks[..k], f) + [f(chunks[k])];
  }

  /** Ingesting the same text into the same project again finds the first source and changes nothing. */
  lemma IngestTwice(word: WordClass, sha: Sha, t: Tables, text: string, src: Source, ids: NewIds, again: Source,
      later: NewIds)
    requires Accepted(Ingest(word, sha, t, text, src, ids).1)
    requires again.project == src.project && again.enabled && again.maxTokens == src.maxTokens
               && again.overlapTokens == src.overlapTokens
    ensures var (n, r) := Ingest(word, sha, t, text, src, ids);
            Ingest(word, sha, n, text, again, later) == (n, Duplicate(r.evidenceId))
  {
    hide ChunksOf, WithChunks;
    var (n, r) := Ingest(word, sha, t, text, src, ids);
    if r.Ingested? {
      FindAppended(
        t.evidence, Evidence(ids.evidence, src.project, src.sourceType, sha(text), src.now, EvidencePending));
      WithChunksSources(sha, WithSource(sha, t, text, src, ids),
        ChunksOf(word, text, src.maxTokens, src.overlapTokens).chunks, ids, src.quality);
    }
  }

  predicate Accepted(r: IngestResult) {
    r.Ingested? || r.Duplicate?
  }

  lemma WithChunksSources(sha: Sha, t: Tables, chunks: seq<Chunk>, ids: NewIds, quality: real)
    ensures WithChunks(sha, t, chunks, ids, quality).evidence == t.evidence
  {
  }

  lemma {:induction false} FindAppended(rows: seq<Evidence>, e: Evidence)
    requires FindEvidence(rows, e.projectId, e.sha256).None?
    ensures FindEvidence(rows + [e], e.projectId, e.sha256) == Some(e)
  {
    if rows != [] {
      assert (rows + [e])[1..] == rows[1..] + [e];
      FindAppended(rows[1..], e);
    }
  }

  /** A stored chunk is the stretch of the text its offsets name, and its span row says the same. */
  predicate RowsTrue(c: TextChunk, s: TokenSpan, text: string, sha: Sha) {
    && 0 <= c.charStart <= c.charEnd <= |text| && c.text == text[c.charStart..c.charEnd]
    && s.chunkId == c.id && s.evidenceId == c.evidenceId && s.text == c.text && s.textSha256 == sha(c.text)
    && s.charStart == c.charStart && s.charEnd == c.charEnd && s.tokenStart == c.tokenStart && s.tokenEnd == c.tokenEnd
    && c.tokenCount == c.tokenEnd - c.tokenStart
  }

  /** New evidence is stored once, pending review, with its text, and true rows for each of its chunks. */
  lemma IngestStores(word: WordClass, sha: Sha, t: Tables, text: string, src: Source, ids: NewIds, k: nat)
    requires Ingest(word, sha, t, text, src, ids).1.Ingested?
               && ChunksOf(word, text, src.maxTokens, src.overlapTokens).Chunked?
    requires k < |ChunksOf(word, text, src.maxTokens, src.overlapTokens).chunks|
    ensures var (n, r) := Ingest(word, sha, t, text, src, ids);
            && |n.evidence| == |t.evidence| + 1 && n.evidence[|t.evidence|].id == r.evidenceId
            && n.evidence[|t.evidence|].projectId == src.project && n.evidence[|t.evidence|].sha256 == sha(text)
            && n.evidence[|t.evidence|].reviewStatus == EvidencePending
            && |n.snapshots| == |t.snapshots| + 1 && n.snapshots[|t.snapshots|].evidenceId == r.evidenceId
            && n.snapshots[|t.snapshots|].text == text && n.snapshots[|t.snapshots|].textSha256 == sha(text)
            && |n.chunks| == |t.chunks| + |ChunksOf(word, text, src.maxTokens, src.overlapTokens).chunks|
            && |n.spans| - |t.spans| == |n.chunks| - |t.chunks| == |n.embeddings| - |t.embeddings|
            && n.chunks[|t.chunks| + k].evidenceId == r.evidenceId
                 && OfChunk(n.chunks[|t.chunks| + k].id) in n.embeddings
            && RowsTrue(n.chunks[|t.chunks| + k], n.spans[|t.spans| + k], text, sha)
  {
    hide ChunksOf, FindEvidence, Tokenize;
    ChunksAreStretches(word, text, src.maxTokens, src.overlapTokens);
    var n := Ingest(word, sha, t, text, src, ids).0;
    assert n.embeddings[|t.embeddings| + k] == OfChunk(n.chunks[|t.chunks| + k].id);
  }
}
