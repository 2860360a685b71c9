/**
 * Candidates of a chunk: the structured adapter, the heuristic extractor, the support
 * span invariant, and the modes that choose between them.
 */
module ClaimExtraction {
  import opened Options
  import opened Text
  import opened Tokens
  import opened Payloads
  import opened Spans
  import Schema = ExtractionSchema
  import SpanRepair
  import opened Sentences
  import opened Candidates

  /**
   * What the model leaves open: the word characters, the privacy score of a text,
   * Python's reading of a number, and the sentence patterns, which draft a candidate
   * or none.
   */
  datatype Env = Env(
    word: WordClass,
    privacy: string -> real,
    number: string -> Option<real>,
    draft: string -> Option<Candidate>)

  // ---------------------------------------------------------------- the support span invariant

  /** `_apply_support_span_invariant`. */
  function SpanInvariant(c: Candidate, source: string, chunkStart: int): Option<Candidate> {
    if c.quote.None? || c.charStart.None? || c.charEnd.None? then None
    else if ValidateSpan(source, c.charStart.value - chunkStart, c.charEnd.value - chunkStart, c.quote.value) then
      Some(c)
    else match FirstMatch(source, c.quote.value)
      case None => None
      case Some(m) =>
        Some(c.(charStart := Some(chunkStart + m.charStart),
                charEnd := Some(chunkStart + m.charEnd),
                quote := Some(m.quote)))
  }

  /** The branch that keeps the candidate as it is. */
  predicate HoldsSpan(c: Candidate, source: string, chunkStart: int) {
    && c.quote.Some? && c.charStart.Some? && c.charEnd.Some?
    && ValidateSpan(source, c.charStart.value - chunkStart, c.charEnd.value - chunkStart, c.quote.value)
  }

  lemma {:induction false} InvariantHolds(c: Candidate, source: string, chunkStart: int)
    requires SpanInvariant(c, source, chunkStart).Some?
    ensures HoldsSpan(SpanInvariant(c, source, chunkStart).value, source, chunkStart)
  {
  }

  lemma {:induction false} HoldsAnchored(c: Candidate, chunk: ChunkRow, document: string)
    requires SliceOf(chunk, document) && HoldsSpan(c, chunk.text, chunk.charStart)
    ensures Anchored(c, document)
  {
    var from, to := c.charStart.value - chunk.charStart, c.charEnd.value - chunk.charStart;
    SliceSlice(document, chunk.charStart, chunk.charStart + |chunk.text|, from, to);
  }

  /** Whatever candidate goes in, one that comes out is anchored in the document. */
  lemma {:induction false} InvariantAnchors(c: Candidate, chunk: ChunkRow, document: string)
    requires SliceOf(chunk, document) && SpanInvariant(c, chunk.text, chunk.charStart).Some?
    ensures Anchored(SpanInvariant(c, chunk.text, chunk.charStart).value, document)
  {
    hide SpanInvariant, HoldsSpan, Anchored;
    InvariantHolds(c, chunk.text, chunk.charStart);
    HoldsAnchored(SpanInvariant(c, chunk.text, chunk.charStart).value, chunk, document);
  }

  // ---------------------------------------------------------------- heuristic candidates

  function Shifted(at: int, n: Option<nat>): Option<int> {
    match n case None => None case Some(k) => Some(at + k)
  }

  function RangeStart(r: Option<(nat, nat)>): Option<nat> {
    match r case None => None case Some((a, _)) => Some(a)
  }

  function RangeEnd(r: Option<(nat, nat)>): Option<nat> {
    match r case None => None case Some((_, b)) => Some(b)
  }

  /** `_sentence_to_candidate` up to its last step. */
  function SentenceCandidate(env: Env, chunk: ChunkRow, s: Sentence): Option<Candidate> {
    var range := TokenRange(Tokenize(env.word, chunk.text), s.start, s.end);
    match env.draft(s.text)
    case None => None
    case Some(d) => Some(d.(
      claimText := s.text,
      sourceQuality := chunk.sourceQuality,
      privacySensitivity := env.privacy(s.text),
      evidenceId := Some(chunk.evidenceId),
      chunkId := Some(chunk.id),
      spanId := chunk.spanId,
      charStart := Some(chunk.charStart + s.start),
      charEnd := Some(chunk.charStart + s.end),
      tokenStart := Shifted(chunk.tokenStart, RangeStart(range)),
      tokenEnd := Shifted(chunk.tokenStart, RangeEnd(range)),
      quote := Some(s.text),
      structured := false,
      reviewRequired := chunk.reviewRequired))
  }

  /** The invariant is applied when the sentence is turned into a candidate, and again by the caller. */
  function FixedTwice(c: Option<Candidate>, chunk: ChunkRow): Option<Candidate> {
    match c
    case None => None
    case Some(c) =>
      match SpanInvariant(c, chunk.text, chunk.charStart)
      case None => None
      case Some(c) => SpanInvariant(c, chunk.text, chunk.charStart)
  }

  function HeuristicFrom(env: Env, chunk: ChunkRow, sentences: seq<Sentence>): seq<Candidate> {
    if sentences == [] then []
    else
      var first := FixedTwice(SentenceCandidate(env, chunk, sentences[0]), chunk);
      (if first.Some? then [first.value] else []) + HeuristicFrom(env, chunk, sentences[1..])
  }

  function Heuristic(env: Env, chunk: ChunkRow): seq<Candidate> {
    HeuristicFrom(env, chunk, SentencesFrom(chunk.text, 0, 0))
  }

  /** `_heuristic_candidates`. */
  method HeuristicCandidates(env: Env, chunk: ChunkRow) returns (out: seq<Candidate>)
    ensures out == Heuristic(env, chunk)
  {
    hide SentenceCandidate, FixedTwice, HeuristicFrom;
    var sentences := SentenceSpans(chunk.text);
    out := [];
    var k := 0;
    assert sentences[0..] == sentences;
    while k < |sentences|
      invariant 0 <= k <= |sentences|
      invariant HeuristicFrom(env, chunk, sentences) == out + HeuristicFrom(env, chunk, sentences[k..])
    {
      HeuristicStep(env, chunk, sentences, k, out);
      var fixed := FixedTwice(SentenceCandidate(env, chunk, sentences[k]), chunk);
      if fixed.Some? {
        out := out + [fixed.value];
      }
      k := k + 1;
    }
    HeuristicEnd(env, chunk);
    assert sentences[k..] == [];
    assert out + [] == out;
  }

  lemma {:induction false} HeuristicEnd(env: Env, chunk: ChunkRow)
    ensures HeuristicFrom(env, chunk, []) == []
  {
  }

  lemma {:induction false} HeuristicStep(env: Env, chunk: ChunkRow, sentences: seq<Sentence>, k: nat,
      out: seq<Candidate>)
    requires k < |sentences|
    ensures var fixed := FixedTwice(SentenceCandidate(env, chunk, sentences[k]), chunk);
            out + HeuristicFrom(env, chunk, sentences[k..])
            == (if fixed.Some? then out + [fixed.value] else out) + HeuristicFrom(env, chunk, sentences[k + 1..])
  {
    hide SentenceCandidate, FixedTwice;
    var fixed := FixedTwice(SentenceCandidate(env, chunk, sentences[k]), chunk);
    assert sentences[k..][1..] == sentences[k + 1..];
    if fixed.Some? {
      Assoc(out, [fixed.value], HeuristicFrom(env, chunk, sentences[k + 1..]));
    }
  }

  // ---------------------------------------------------------------- structured candidates

  /** `float(value)`, or the default when that raises. */
  function FloatOr(env: Env, v: Value, default: real): real {
    match v
    case Int(n) => n as real
    case Real(x) => x
    case Str(s) => env.number(s).Or(default)
    case _ => default
  }

  function ParseMemoryType(v: Value): MemoryType {
    if !v.Str? then ProjectDecision
    else match v.s
      case "identity" => Identity
      case "project_decision" => ProjectDecision
      case "evidence_claim" => EvidenceClaim
      case "procedure" => Procedure
      case "correction" => Correction
      case "contradiction" => Contradiction
      case "inference" => Inference
      case "transient" => Transient
      case _ => Unknown
  }

  predicate Falsy(v: Value) {
    match v
    case Null => true
    case Int(n) => n == 0
    case Real(x) => x == 0.0
    case Str(s) => s == ""
    case List(items) => items == []
    case Dict(fields) => fields == map[]
  }

  /** Whether `dict(v)` accepts a truthy value: a dict, or a list of pairs with hashable keys. */
  predicate MakesDict(v: Value) {
    v.Dict? || (v.List? && forall k :: 0 <= k < |v.items| ==> MakesPair(v.items[k]))
  }

  predicate MakesPair(v: Value) {
    match v
    case Str(s) => |s| == 2
    case List(items) => |items| == 2 && !items[0].List? && !items[0].Dict?
    case Dict(fields) => |fields| == 2
    case _ => false
  }

  function Take(s: string, n: nat): string {
    if |s| <= n then s else s[..n]
  }

  /** `_required_str`: the trimmed string, empty when there is none. */
  function RequiredStr(fields: map<string, Value>, key: string): string {
    var v := Get(fields, key);
    if v.Str? then Strip(v.s) else ""
  }

  /** The evidence kind and the support relation, the older `evidence_relation` filling in for a missing one. */
  function KindAndRelation(fields: map<string, Value>): (string, string) {
    var kind := if "evidence_kind" in fields then fields["evidence_kind"] else Str("unknown");
    var relation := if "support_relation" in fields then fields["support_relation"] else Str("supports");
    var legacy := Get(fields, "evidence_relation");
    var isKind := legacy.Str? && legacy.s in Schema.EVIDENCE_KINDS;
    var kind' := if isKind && "evidence_kind" !in fields then legacy else kind;
    var relation' := if !isKind && Schema.NonBlank(legacy) && "support_relation" !in fields then legacy else relation;
    (if kind'.Str? && kind'.s in Schema.EVIDENCE_KINDS then kind'.s else "unknown",
     if Schema.NonBlank(relation') then relation'.s else "supports")
  }

  datatype EntryResult = Accepted(candidate: Candidate) | Refused(reason: string) | Crashed

  predicate HasTokenSpan(fields: map<string, Value>) {
    "support_token_start" in fields || "support_token_end" in fields
  }

  /** The span of an entry or the reason there is none: `_read_char_span`. */
  function ReadCharSpan(fields: map<string, Value>, text: string): Option<string> {
    var (start, end) := SpanOf(fields);
    if !start.Int? || !end.Int? then Some("invalid_schema")
    else if start.n < 0 || end.n > |text| then Some("invalid_schema")
    else if end.n <= start.n then Some("zero_length_span")
    else None
  }

  /** `_read_token_span`. */
  function ReadTokenSpan(fields: map<string, Value>): Option<string> {
    var start, end := Get(fields, "support_token_start"), Get(fields, "support_token_end");
    if !start.Int? || !end.Int? then Some("invalid_schema")
    else if start.n < 0 || end.n <= start.n then Some("zero_length_span")
    else None
  }

  /** The token span: the entry's own when it states a good one, else the chunk's tokens that overlap. */
  function TokenSpanOf(env: Env, fields: map<string, Value>, text: string, from: int, to: int)
    : (Option<int>, Option<int>)
  {
    if ReadTokenSpan(fields).None? then
      (Some(Get(fields, "support_token_start").n), Some(Get(fields, "support_token_end").n))
    else
      var range := TokenRange(Tokenize(env.word, text), from, to);
      (Shifted(0, RangeStart(range)), Shifted(0, RangeEnd(range)))
  }

  function Plus(at: int, n: Option<int>): Option<int> {
    match n case None => None case Some(k) => Some(at + k)
  }

  /** The candidate an entry describes, once its span is known to be good. */
  function Build(env: Env, fields: map<string, Value>, chunk: ChunkRow, from: nat, to: nat, quote: string): Candidate {
    var claimText := RequiredStr(fields, "claim_text");
    var (kind, relation) := KindAndRelation(fields);
    var (tokenStart, tokenEnd) := TokenSpanOf(env, fields, chunk.text, from, to);
    Candidate(
      Take(RequiredStr(fields, "subject"), 240), Take(RequiredStr(fields, "predicate"), 120),
      Take(RequiredStr(fields, "object"), 500), claimText,
      ParseMemoryType(Get(fields, "memory_type")), ProjectMemory,
      FloatOr(env, Get(fields, "confidence"), 0.64), FloatOr(env, Get(fields, "salience"), 0.68),
      chunk.sourceQuality,
      FloatOr(env, Get(fields, "user_explicitness"), 0.9), FloatOr(env, Get(fields, "long_term_usefulness"), 0.78),
      FloatOr(env, Get(fields, "project_relevance"), 0.9), FloatOr(env, Get(fields, "actionability"), 0.72),
      FloatOr(env, Get(fields, "contradiction_value"), 0.0), env.privacy(claimText),
      FloatOr(env, Get(fields, "uncertainty"), 0.18), FloatOr(env, Get(fields, "triviality"), 0.05),
      FloatOr(env, Get(fields, "short_livedness"), 0.05),
      Some(chunk.evidenceId), Some(chunk.id), chunk.spanId,
      Some(chunk.charStart + from), Some(chunk.charStart + to),
      Plus(chunk.tokenStart, tokenStart), Plus(chunk.tokenStart, tokenEnd), Some(quote),
      relation, kind, relation, true, chunk.reviewRequired)
  }

  predicate HasStrings(fields: map<string, Value>) {
    && RequiredStr(fields, "subject") != "" && RequiredStr(fields, "predicate") != ""
    && RequiredStr(fields, "object") != "" && RequiredStr(fields, "claim_text") != ""
  }

  /** `_candidate_from_structured_json`; `Crashed` when it raises. */
  function StructuredCandidate(env: Env, fields: map<string, Value>, chunk: ChunkRow): EntryResult {
    if !HasStrings(fields) then Refused("invalid_schema")
    else if ReadCharSpan(fields, chunk.text).Some? then Refused(ReadCharSpan(fields, chunk.text).value)
    else if HasTokenSpan(fields) && ReadTokenSpan(fields).Some? then Refused(ReadTokenSpan(fields).value)
    else
      var (start, end) := SpanOf(fields);
      var slice := chunk.text[start.n..end.n];
      var provided := Get(fields, "support_quote_text");
      if provided != Null && !provided.Str? then Refused("invalid_schema")
      else if provided.Str? && provided.s != slice then Refused("support_quote_mismatch")
      else if !Falsy(Get(fields, "metadata")) && !MakesDict(Get(fields, "metadata")) then Crashed
      else match SpanInvariant(Build(env, fields, chunk, start.n, end.n, slice), chunk.text, chunk.charStart)
        case None => Refused("support_span_invalid")
        case Some(c) => Accepted(c)
  }

  datatype Detail = Note(text: string) | Fault(reason: Schema.Reason) | ProviderError

  datatype Structured = Structured(candidates: seq<Candidate>, reason: Option<Detail>) | Raises

  function DictsOf(items: seq<Value>): seq<map<string, Value>> {
    if items == [] then []
    else (if items[0].Dict? then [items[0].fields] else []) + DictsOf(items[1..])
  }

  /** `_normalize_json_candidates_payload`. */
  function Entries(payload: Value): seq<map<string, Value>> {
    match payload
    case List(items) => DictsOf(items)
    case Dict(fields) => if CandidatesFirst(fields).List? then DictsOf(CandidatesFirst(fields).items) else []
    case _ => []
  }

  /** The entries one after another, the first refusal kept as the reason. */
  function AdaptFrom(env: Env, entries: seq<map<string, Value>>, chunk: ChunkRow, out: seq<Candidate>,
      reason: Option<Detail>): Structured
  {
    if entries == [] then Structured(out, reason)
    else match StructuredCandidate(env, entries[0], chunk)
      case Crashed => Raises
      case Refused(r) => AdaptFrom(env, entries[1..], chunk, out, if reason.None? then Some(Note(r)) else reason)
      case Accepted(c) => AdaptFrom(env, entries[1..], chunk, out + [c], reason)
  }

  function SchemaReason(payload: Value, text: string): Option<Detail> {
    if !payload.Dict? then None
    else match Schema.Violation(payload, Some(text))
      case None => None
      case Some(r) => Some(Fault(r))
  }

  predicate ValidEmpty(payload: Value, text: string) {
    && payload.Dict? && Schema.Violation(payload, Some(text)).None?
    && ClaimsFirst(payload.fields).List? && ClaimsFirst(payload.fields).items == []
  }

  function Adapted(env: Env, payload: Value, chunk: ChunkRow): Structured {
    var entries := Entries(payload);
    if entries == [] then
      if ValidEmpty(payload, chunk.text) then Structured([], None) else Structured([], Some(Note("invalid_json")))
    else
      var r := AdaptFrom(env, entries, chunk, [], SchemaReason(payload, chunk.text));
      if r.Structured? && r.reason.None? && r.candidates == [] then Structured([], Some(Note("invalid_schema"))) else r
  }

  /** `_structured_candidates_from_json`. */
  method StructuredCandidates(env: Env, payload: Value, chunk: ChunkRow) returns (r: Structured)
    ensures r == Adapted(env, payload, chunk)
  {
    hide StructuredCandidate, Entries;
    var entries := Entries(payload);
    var reason := SchemaReason(payload, chunk.text);
    if entries == [] {
      if ValidEmpty(payload, chunk.text) {
        return Structured([], None);
      }
      return Structured([], Some(Note("invalid_json")));
    }
    var out: seq<Candidate> := [];
    var k := 0;
    assert entries[0..] == entries;
    ghost var whole := AdaptFrom(env, entries, chunk, [], reason);
    while k < |entries|
      invariant 0 <= k <= |entries|
      invariant whole == AdaptFrom(env, entries[k..], chunk, out, reason)
    {
      var one := StructuredCandidate(env, entries[k], chunk);
      assert entries[k..][1..] == entries[k + 1..];
      match one {
        case Crashed => return Raises;
        case Refused(text) =>
          if reason.None? {
            reason := Some(Note(text));
          }
        case Accepted(c) => out := out + [c];
      }
      k := k + 1;
    }
    if reason.Some? {
      return Structured(out, reason);
    }
    if out == [] {
      return Structured([], Some(Note("invalid_schema")));
    }
    return Structured(out, None);
  }

  // ---------------------------------------------------------------- modes

  datatype Mode = HeuristicMode | JsonWithFallback | JsonStrict

  /** An unknown mode is the fallback mode. */
  function ParseMode(s: string): Mode {
    if s == "heuristic" then HeuristicMode else if s == "json_strict" then JsonStrict else JsonWithFallback
  }

  /** What the structured extractor does when it is asked: nothing there, an exception, or a payload. */
  datatype Answer = Unavailable | Raised | Answered(payload: Value)

  datatype Status = StructuredEmpty | HeuristicSuccess | HeuristicFallback | StrictRejected | StructuredSuccess

  datatype Extraction = Extraction(candidates: seq<Candidate>, status: Status, detail: Option<Detail>)

  /** `_repair_structured_payload_spans`: strict mode repairs only when it is told to. */
  function RepairSpans(payload: Value, text: string, mode: Mode, allowRepair: bool): (Value, Option<Detail>) {
    if !payload.Dict? then (payload, None)
    else if mode == JsonStrict && !allowRepair then (payload, None)
    else
      var (fields, error) := SpanRepair.RepairPayload(payload.fields, text, true);
      (Dict(fields), match error case None => None case Some(r) => Some(Fault(r)))
  }

  /** The outcome when there is no usable structured answer. */
  function GiveUp(env: Env, chunk: ChunkRow, mode: Mode, detail: Detail): Extraction {
    if mode == JsonStrict then Extraction([], StrictRejected, Some(detail))
    else Extraction(Heuristic(env, chunk), HeuristicFallback, Some(detail))
  }

  function Extract(env: Env, chunk: ChunkRow, mode: Mode, answer: Answer, allowRepair: bool): Extraction {
    if chunk.text == "" then
      Extraction([], if mode == JsonStrict then StrictRejected else StructuredEmpty, Some(Note("chunk_text_empty")))
    else if mode == HeuristicMode then Extraction(Heuristic(env, chunk), HeuristicSuccess, None)
    else match answer
      case Unavailable => GiveUp(env, chunk, mode, Note("structured_extractor_unavailable"))
      case Raised => GiveUp(env, chunk, mode, ProviderError)
      case Answered(payload) =>
        var (repaired, error) := RepairSpans(payload, chunk.text, mode, allowRepair);
        if error.Some? && mode == JsonStrict then Extraction([], StrictRejected, error)
        else match Adapted(env, repaired, chunk)
          case Raises => GiveUp(env, chunk, mode, ProviderError)
          case Structured(out, reason) =>
            if reason.Some? then GiveUp(env, chunk, mode, reason.value) else Extraction(out, StructuredSuccess, None)
  }

  /** `_extract_candidates_with_status`. */
  method ExtractCandidates(env: Env, chunk: ChunkRow, modeName: string, answer: Answer, allowRepair: bool)
    returns (r: Extraction)
    ensures r == Extract(env, chunk, ParseMode(modeName), answer, allowRepair)
  {
    hide Adapted, Heuristic;
    var mode := ParseMode(modeName);
    var strict := mode == JsonStrict;
    if chunk.text == "" {
      return Extraction([], if strict then StrictRejected else StructuredEmpty, Some(Note("chunk_text_empty")));
    }
    if mode == HeuristicMode {
      var heuristic := HeuristicCandidates(env, chunk);
      return Extraction(heuristic, HeuristicSuccess, None);
    }
    var detail;
    match answer {
      case Unavailable => detail := Note("structured_extractor_unavailable");
      case Raised => detail := ProviderError;
      case Answered(payload) =>
        var (repaired, error) := RepairSpans(payload, chunk.text, mode, allowRepair);
        if error.Some? && strict {
          return Extraction([], StrictRejected, error);
        }
        var structured := StructuredCandidates(env, repaired, chunk);
        if structured.Structured? && structured.reason.None? {
          return Extraction(structured.candidates, StructuredSuccess, None);
        }
        detail := if structured.Raises? then ProviderError else structured.reason.value;
    }
    if strict {
      return Extraction([], StrictRejected, Some(detail));
    }
    var heuristic := HeuristicCandidates(env, chunk);
    return Extraction(heuristic, HeuristicFallback, Some(detail));
  }
}
