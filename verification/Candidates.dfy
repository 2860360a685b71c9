/** A proposed claim and the chunk it is taken from. */
module Candidates {
  import opened Options

  datatype MemoryType =
    | Identity | ProjectDecision | EvidenceClaim | Procedure | Correction
    | Contradiction | Inference | Transient | Unknown

  datatype MemoryLevel = DoNotSave | SessionMemory | ProjectMemory | CoreMemory | EvidenceMemory

  datatype Candidate = Candidate(
    subject: string,
    predicate_: string,
    object_: string,
    claimText: string,
    memoryType: MemoryType,
    memoryLevel: MemoryLevel,
    confidence: real,
    salience: real,
    sourceQuality: real,
    userExplicitness: real,
    longTermUsefulness: real,
    projectRelevance: real,
    actionability: real,
    contradictionValue: real,
    privacySensitivity: real,
    uncertainty: real,
    triviality: real,
    shortLivedness: real,
    evidenceId: Option<string>,
    chunkId: Option<string>,
    spanId: Option<string>,
    charStart: Option<int>,
    charEnd: Option<int>,
    tokenStart: Option<int>,
    tokenEnd: Option<int>,
    quote: Option<string>,
    supportRelation: string,
    evidenceKind: string,
    evidenceRelation: string,
    structured: bool,
    reviewRequired: bool)

  /** A `text_chunks` row joined with its span and its source's registry row. */
  datatype ChunkRow = ChunkRow(
    id: string,
    evidenceId: string,
    text: string,
    charStart: nat,
    tokenStart: nat,
    sourceQuality: real,
    spanId: Option<string>,
    reviewRequired: bool)

  predicate InRange(c: Candidate) {
    0.0 <= c.confidence <= 1.0 && 0.0 <= c.salience <= 1.0
  }

  /** Whether the chunk is the stretch of the document its offset says it is. */
  predicate SliceOf(chunk: ChunkRow, document: string) {
    && chunk.charStart + |chunk.text| <= |document|
    && document[chunk.charStart..chunk.charStart + |chunk.text|] == chunk.text
  }

  /** The quote is the document's text at the candidate's offsets, and is not empty. */
  predicate Anchored(c: Candidate, document: string) {
    && c.charStart.Some? && c.charEnd.Some? && c.quote.Some?
    && 0 <= c.charStart.value < c.charEnd.value <= |document|
    && document[c.charStart.value..c.charEnd.value] == c.quote.value
  }
}
