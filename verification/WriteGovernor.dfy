/** `MemoryWriteGovernor`: whether a candidate is saved, merged, supersedes, or waits for review. */
module WriteGovernor {
  import opened Options
  import opened Candidates
  import opened Store
  import opened Connections

  /** Text functions the decisions rest on: key normalisation, polarity and embedding similarity. */
  datatype Lexicon = Lexicon(
    key: string -> string,
    negates: string -> bool,
    similarity: (string, string) -> real)

  datatype Policy = Policy(
    durableSave: real, sessionSave: real, reviewPrivacy: real, explicitOverride: real, nearDuplicate: real,
    inferenceReviewQuality: real, staleAfterDays: int, decayPerRun: real, minimumSalience: real)

  const DEFAULT_POLICY := Policy(0.72, 0.48, 0.85, 0.85, 0.92, 0.40, 180, 0.03, 0.12)

  datatype Decision =
    | SaveNew | MergeWithExisting | UpdateExisting | SaveAsInferenceOnly | SessionOnly | Reject | NeedsHumanReview

  datatype WriteResult = WriteResult(
    decision: Decision, level: MemoryLevel, score: real, matched: Option<string>, requiresReview: bool)

  datatype Similar = Similar(claim: Claim, score: real)

  function Clamp(x: real): (r: real)
    ensures 0.0 <= r <= 1.0 && (0.0 <= x <= 1.0 ==> r == x)
  {
    if x < 0.0 then 0.0 else if x > 1.0 then 1.0 else x
  }

  /** `save_score`. */
  function SaveScore(c: Candidate): real {
    var positive := 0.22 * c.longTermUsefulness + 0.18 * c.userExplicitness + 0.16 * c.projectRelevance
                    + 0.14 * c.sourceQuality + 0.10 * c.actionability + 0.10 * c.contradictionValue + 0.10 * c.salience;
    var negative := 0.20 * c.privacySensitivity + 0.20 * c.uncertainty + 0.25 * c.triviality + 0.25 * c.shortLivedness;
    Clamp(positive - negative + 0.20)
  }

  // ---------------------------------------------------------------- duplicate search

  predicate SameKey(lex: Lexicon, c: Candidate, claim: Claim) {
    lex.key(c.subject) == lex.key(claim.subject) && lex.key(c.predicate_) == lex.key(claim.predicate_)
  }

  function SimilarScore(lex: Lexicon, c: Candidate, claim: Claim): real {
    lex.similarity(c.claimText, claim.claimText) + if SameKey(lex, c, claim) then 0.15 else 0.0
  }

  /** The rows of the duplicate search: live claims of the project that have an embedding, at most 500. */
  function Comparable(t: Tables, project: string): seq<Claim> {
    First(
      Filter(t.claims, (c: Claim) => c.projectId == project && Live(c.status) && OfClaim(c.id) in t.embeddings), 500)
  }

  /** The first of the best-scoring rows. */
  ghost predicate IsBest(lex: Lexicon, c: Candidate, rows: seq<Claim>, k: nat) {
    && k < |rows|
    && (forall j :: 0 <= j < |rows| ==> SimilarScore(lex, c, rows[j]) <= SimilarScore(lex, c, rows[k]))
    && (forall j :: 0 <= j < k ==> SimilarScore(lex, c, rows[j]) < SimilarScore(lex, c, rows[k]))
  }

  /** The best of the first `n` rows. */
  function BestOf(lex: Lexicon, c: Candidate, rows: seq<Claim>, n: nat): Option<Similar>
    requires n <= |rows|
  {
    if n == 0 then None
    else
      var best := BestOf(lex, c, rows, n - 1);
      var score := SimilarScore(lex, c, rows[n - 1]);
      if best.None? || score > best.value.score then Some(Similar(rows[n - 1], score)) else best
  }

  function FindSimilar(lex: Lexicon, t: Tables, c: Candidate, project: string): Option<Similar> {
    BestOf(lex, c, Comparable(t, project), |Comparable(t, project)|)
  }

  /** `find_similar_claim`. */
  method FindSimilarClaim(lex: Lexicon, con: Connection, c: Candidate, project: string)
    returns (ok: bool, best: Option<Similar>)
    modifies con`executed
    ensures con.executed >= old(con.executed) && (ok <==> !Faulty(con.raises, old(con.executed), con.executed))
    ensures ok ==> best == FindSimilar(lex, con.tables, c, project)
  {
    best := None;
    ok := con.Execute();
    if !ok {
      return;
    }
    var rows := Comparable(con.tables, project);
    for k := 0 to |rows|
      invariant best == BestOf(lex, c, rows, k)
    {
      var score := SimilarScore(lex, c, rows[k]);
      if best.None? || score > best.value.score {
        best := Some(Similar(rows[k], score));
      }
    }
  }

  lemma {:induction false} BestOfIs(lex: Lexicon, c: Candidate, rows: seq<Claim>, n: nat) returns (k: nat)
    requires 0 < n <= |rows|
    ensures k < n && IsBest(lex, c, rows[..n], k)
    ensures BestOf(lex, c, rows, n) == Some(Similar(rows[k], SimilarScore(lex, c, rows[k])))
  {
    hide SimilarScore;
    if n == 1 {
      k := 0;
    } else {
      k := BestOfIs(lex, c, rows, n - 1);
      assert forall j :: 0 <= j < n - 1 ==> rows[..n][j] == rows[..n - 1][j];
      if SimilarScore(lex, c, rows[n - 1]) > SimilarScore(lex, c, rows[k]) {
        k := n - 1;
      }
    }
  }

  /** The search finds the first best-scoring live claim of the project, or nothing when there is none to compare. */
  lemma FindSimilarIs(lex: Lexicon, t: Tables, c: Candidate, project: string) returns (k: nat)
    ensures Comparable(t, project) == [] ==> FindSimilar(lex, t, c, project).None?
    ensures Comparable(t, project) != [] ==>
              && IsBest(lex, c, Comparable(t, project), k)
              && FindSimilar(lex, t, c, project)
                 == Some(Similar(Comparable(t, project)[k], SimilarScore(lex, c, Comparable(t, project)[k])))
  {
    k := 0;
    var rows := Comparable(t, project);
    if rows != [] {
      k := BestOfIs(lex, c, rows, |rows|);
      assert rows[..|rows|] == rows;
    }
  }

  // ---------------------------------------------------------------- decisions

  /** `_looks_contradictory`. */
  predicate LooksContradictory(lex: Lexicon, c: Candidate, claim: Claim) {
    && SameKey(lex, c, claim)
    && lex.key(c.object_) != lex.key(claim.object_)
    && (lex.negates(c.claimText) != lex.negates(claim.claimText) || c.memoryType == MemoryType.Correction)
  }

  /** `decide`. */
  function Decide(lex: Lexicon, policy: Policy, t: Tables, c: Candidate, project: string): WriteResult {
    if c.reviewRequired then WriteResult(NeedsHumanReview, ProjectMemory, 0.5, None, true)
    else if Truthy(c.evidenceId) && c.memoryLevel == EvidenceMemory then
      WriteResult(SaveNew, EvidenceMemory, 1.0, None, false)
    else if c.privacySensitivity >= policy.reviewPrivacy && c.userExplicitness < policy.explicitOverride then
      WriteResult(NeedsHumanReview, SessionMemory, 0.2, None, true)
    else
      var similar := FindSimilar(lex, t, c, project);
      var near := similar.Some? && similar.value.score >= policy.nearDuplicate;
      if near && !LooksContradictory(lex, c, similar.value.claim) then
        if c.memoryType == MemoryType.Correction then
          WriteResult(UpdateExisting, ProjectMemory, 0.82, Some(similar.value.claim.id), false)
        else WriteResult(MergeWithExisting, ProjectMemory, 0.75, Some(similar.value.claim.id), false)
      else if c.memoryType == MemoryType.Inference && c.sourceQuality < policy.inferenceReviewQuality then
        WriteResult(SaveAsInferenceOnly, ProjectMemory, 0.45, None, true)
      else
        var score := SaveScore(c);
        if score >= policy.durableSave then WriteResult(SaveNew, ProjectMemory, score, None, false)
        else if score >= policy.sessionSave then WriteResult(SessionOnly, SessionMemory, score, None, false)
        else WriteResult(Reject, DoNotSave, score, None, false)
  }

  /** Material that must wait for a reviewer: its source is registered so, or it is private and was not asked for. */
  predicate MustWait(policy: Policy, c: Candidate) {
    || c.reviewRequired
    || (!(Truthy(c.evidenceId) && c.memoryLevel == EvidenceMemory)
        && c.privacySensitivity >= policy.reviewPrivacy && c.userExplicitness < policy.explicitOverride)
  }

  /**
   * The claim an answer points at: live, of the project, near enough, not contradicted, and no
   * compared claim is nearer.
   */
  ghost predicate Nearest(lex: Lexicon, policy: Policy, t: Tables, c: Candidate, project: string, id: string) {
    exists k :: 0 <= k < |Comparable(t, project)| && IsBest(lex, c, Comparable(t, project), k)
      && Comparable(t, project)[k].id == id
      && SimilarScore(lex, c, Comparable(t, project)[k]) >= policy.nearDuplicate
      && !LooksContradictory(lex, c, Comparable(t, project)[k])
  }

  /** What a decision says of the store and the candidate. */
  ghost predicate Decided(lex: Lexicon, policy: Policy, t: Tables, c: Candidate, project: string, r: WriteResult) {
    && (r.decision == NeedsHumanReview <==> MustWait(policy, c))
    && (r.matched.Some? ==> Nearest(lex, policy, t, c, project, r.matched.value))
    && (r.matched.Some? <==> r.decision == MergeWithExisting || r.decision == UpdateExisting)
    && (r.decision == UpdateExisting ==> c.memoryType == MemoryType.Correction)
    && (r.decision == MergeWithExisting ==> c.memoryType != MemoryType.Correction)
    && (r.requiresReview <==> r.decision == NeedsHumanReview || r.decision == SaveAsInferenceOnly)
    && (r.decision == SaveAsInferenceOnly ==>
         c.memoryType == MemoryType.Inference && c.sourceQuality < policy.inferenceReviewQuality)
    && (r.decision == SaveNew ==>
         SaveScore(c) >= policy.durableSave || (Truthy(c.evidenceId) && c.memoryLevel == EvidenceMemory))
    && (r.decision == SessionOnly ==> policy.sessionSave <= SaveScore(c) < policy.durableSave)
    && (r.decision == Reject ==> SaveScore(c) < policy.durableSave && SaveScore(c) < policy.sessionSave)
  }

  /** A decision waits exactly when it must, matches only the nearest claim, and saves only what scores. */
  lemma DecidedIs(lex: Lexicon, policy: Policy, t: Tables, c: Candidate, project: string)
    ensures Decided(lex, policy, t, c, project, Decide(lex, policy, t, c, project))
  {
    hide SaveScore, LooksContradictory, SimilarScore, IsBest, FindSimilar, Comparable;
    var k := FindSimilarIs(lex, t, c, project);
  }

  /** `decide` as the governor runs it. */
  method DecideWrite(lex: Lexicon, policy: Policy, con: Connection, c: Candidate, project: string)
    returns (ok: bool, r: WriteResult)
    modifies con`executed
    ensures con.executed >= old(con.executed) && (ok <==> !Faulty(con.raises, old(con.executed), con.executed))
    ensures ok ==> r == Decide(lex, policy, con.tables, c, project) && Decided(lex, policy, con.tables, c, project, r)
  {
    DecidedIs(lex, policy, con.tables, c, project);
    hide FindSimilar, Decided;
    ok := true;
    if c.reviewRequired {
      r := WriteResult(NeedsHumanReview, ProjectMemory, 0.5, None, true);
      return;
    }
    if Truthy(c.evidenceId) && c.memoryLevel == EvidenceMemory {
      r := WriteResult(SaveNew, EvidenceMemory, 1.0, None, false);
      return;
    }
    r := WriteResult(NeedsHumanReview, SessionMemory, 0.2, None, true);
    if c.privacySensitivity >= policy.reviewPrivacy && c.userExplicitness < policy.explicitOverride {
      return;
    }
    var similar;
    ok, similar := FindSimilarClaim(lex, con, c, project);
    if !ok {
      return;
    }
    if similar.Some? && similar.value.score >= policy.nearDuplicate {
      if !LooksContradictory(lex, c, similar.value.claim) {
        var matched := Some(similar.value.claim.id);
        if c.memoryType == MemoryType.Correction {
          r := WriteResult(UpdateExisting, ProjectMemory, 0.82, matched, false);
        } else {
          r := WriteResult(MergeWithExisting, ProjectMemory, 0.75, matched, false);
        }
        return;
      }
    }
    var score := SaveScore(c);
    if c.memoryType == MemoryType.Inference && c.sourceQuality < policy.inferenceReviewQuality {
      r := WriteResult(SaveAsInferenceOnly, ProjectMemory, 0.45, None, true);
    } else if score >= policy.durableSave {
      r := WriteResult(SaveNew, ProjectMemory, score, None, false);
    } else if score >= policy.sessionSave {
      r := WriteResult(SessionOnly, SessionMemory, score, None, false);
    } else {
      r := WriteResult(Reject, DoNotSave, score, None, false);
    }
  }

  // ---------------------------------------------------------------- writes

  function SupportOf(claimId: string, c: Candidate, kind: SupportType): Support {
    Support(claimId, c.evidenceId.Or(""), c.chunkId, c.spanId, kind, c.confidence)
  }

  /** `candidate.support_quote_text or candidate.claim_text`. */
  function QuoteOf(c: Candidate): string {
    if Truthy(c.quote) then c.quote.value else c.claimText
  }

  /** The link and the support span a write adds when the candidate names its evidence. */
  function Supported(t: Tables, claimId: string, c: Candidate, kind: SupportType): Tables {
    if !Truthy(c.evidenceId) then t
    else t.(
      links := t.links + [Link(SupportOf(claimId, c, kind), c.evidenceRelation, c.evidenceKind)],
      supports := t.supports + [SupportSpan(SupportOf(claimId, c, kind), c.charStart, c.charEnd,
                                            c.tokenStart, c.tokenEnd, QuoteOf(c))])
  }

  function AtMostOne(x: real): real {
    if x < 1.0 then x else 1.0
  }

  function Boosted(id: string): Claim -> Claim {
    (c: Claim) =>
      if c.id == id then c.(salience := AtMostOne(c.salience + 0.08), confidence := AtMostOne(c.confidence + 0.04))
      else c
  }

  function SupersededBy(id: string): Claim -> Claim {
    (c: Claim) => if c.id == id then c.(status := Status.Superseded) else c
  }

  function Merge(t: Tables, id: string, c: Candidate): Tables {
    Supported(t.(claims := Mapped(t.claims, Boosted(id))), id, c, Corroborates)
  }

  function Supersede(t: Tables, id: string): Tables {
    t.(claims := Mapped(t.claims, SupersededBy(id)))
  }

  function NewClaim(id: string, project: string, c: Candidate, r: WriteResult, now: string): Claim {
    Claim(id, project, c.subject, c.predicate_, c.object_, c.claimText, c.memoryType, r.level,
          if r.requiresReview then PendingReview else Active, c.confidence, c.salience, c.sourceQuality, now)
  }

  function Insert(t: Tables, id: string, project: string, c: Candidate, r: WriteResult, now: string): Tables {
    Supported(t.(claims := t.claims + [NewClaim(id, project, c, r, now)], embeddings := t.embeddings + [OfClaim(id)]),
              id, c, Supports)
  }

  predicate Saves(d: Decision) {
    d == SaveNew || d == SaveAsInferenceOnly || d == NeedsHumanReview
  }

  /** `commit_candidate`: the tables afterwards and the result, `id` being the fresh claim id. */
  function Commit(lex: Lexicon, policy: Policy, t: Tables, c: Candidate, project: string, id: string,
      now: string): (Tables, WriteResult)
  {
    var r := Decide(lex, policy, t, c, project);
    if r.decision == MergeWithExisting && Truthy(r.matched) then (Merge(t, r.matched.value, c), r)
    else if r.decision == UpdateExisting && Truthy(r.matched) then
      var saved := WriteResult(SaveNew, ProjectMemory, r.score, None, false);
      (Insert(Supersede(t, r.matched.value), id, project, c, saved, now), saved.(matched := Some(id)))
    else if Saves(r.decision) then (Insert(t, id, project, c, r, now), r.(matched := Some(id)))
    else (t, r)
  }

  /** The link and then the support span, when the candidate names its evidence. */
  method InsertSupport(con: Connection, claimId: string, c: Candidate, kind: SupportType) returns (ok: bool)
    modifies con`executed, con`tables
    ensures con.executed >= old(con.executed) && (ok <==> !Faulty(con.raises, old(con.executed), con.executed))
    ensures ok ==> con.tables == Supported(old(con.tables), claimId, c, kind)
  {
    ok := true;
    if !Truthy(c.evidenceId) {
      return;
    }
    ok := con.Execute();
    if !ok {
      return;
    }
    con.tables := con.tables.(links := con.tables.links
      + [Link(SupportOf(claimId, c, kind), c.evidenceRelation, c.evidenceKind)]);
    ok := con.Execute();
    if ok {
      con.tables := con.tables.(supports := con.tables.supports
        + [SupportSpan(SupportOf(claimId, c, kind), c.charStart, c.charEnd, c.tokenStart, c.tokenEnd, QuoteOf(c))]);
    }
  }

  /** The end of a callee's work: a commit when it commits for itself. */
  method Finish(con: Connection, autocommit: bool) returns (ok: bool)
    modifies con`executed, con`durable
    ensures con.executed >= old(con.executed) && (ok <==> !Faulty(con.raises, old(con.executed), con.executed))
    ensures !autocommit ==> con.durable == old(con.durable)
    ensures ok && autocommit ==> con.durable == con.Seen()
  {
    ok := true;
    if autocommit {
      ok := con.Commit();
    }
  }

  /** `_merge_claim`. */
  method MergeClaim(con: Connection, id: string, c: Candidate, autocommit: bool) returns (ok: bool)
    modifies con`executed, con`tables, con`durable
    ensures con.executed >= old(con.executed) && (ok <==> !Faulty(con.raises, old(con.executed), con.executed))
    ensures ok ==> con.tables == Merge(old(con.tables), id, c)
    ensures !autocommit ==> con.durable == old(con.durable)
    ensures ok && autocommit ==> con.durable == con.Seen()
  {
    ok := con.Execute();
    if !ok {
      return;
    }
    con.tables := con.tables.(claims := Mapped(con.tables.claims, Boosted(id)));
    ok := InsertSupport(con, id, c, Corroborates);
    if ok {
      ok := Finish(con, autocommit);
    }
  }

  /** `_supersede_claim`: the row read, updated, and the lifecycle event inserted. */
  method SupersedeClaim(con: Connection, id: string, autocommit: bool) returns (ok: bool)
    modifies con`executed, con`tables, con`durable
    ensures con.executed >= old(con.executed) && (ok <==> !Faulty(con.raises, old(con.executed), con.executed))
    ensures ok ==> con.tables == Supersede(old(con.tables), id)
    ensures !autocommit ==> con.durable == old(con.durable)
    ensures ok && autocommit ==> con.durable == con.Seen()
  {
    ok := con.Execute();
    if !ok {
      return;
    }
    ok := con.Execute();
    if !ok {
      return;
    }
    con.tables := con.tables.(claims := Mapped(con.tables.claims, SupersededBy(id)));
    ok := con.Execute();
    if ok {
      ok := Finish(con, autocommit);
    }
  }

  /** `audit`: a row of a table the model leaves out, and the commit. */
  method Audit(con: Connection, autocommit: bool) returns (ok: bool)
    modifies con`executed, con`durable
    ensures con.executed >= old(con.executed) && (ok <==> !Faulty(con.raises, old(con.executed), con.executed))
    ensures !autocommit ==> con.durable == old(con.durable)
    ensures ok && autocommit ==> con.durable == con.Seen()
  {
    ok := con.Execute();
    if ok {
      ok := Finish(con, autocommit);
    }
  }

  /** The rows of a claim that is saved: the claim, its review and search rows, its embedding, its support. */
  method SaveClaim(con: Connection, c: Candidate, r: WriteResult, project: string, id: string, now: string,
      autocommit: bool)
    returns (ok: bool)
    modifies con`executed, con`tables, con`durable
    ensures con.executed >= old(con.executed) && (ok <==> !Faulty(con.raises, old(con.executed), con.executed))
    ensures ok ==> con.tables == Insert(old(con.tables), id, project, c, r, now)
    ensures !autocommit ==> con.durable == old(con.durable)
    ensures ok && autocommit ==> con.durable == con.Seen()
  {
    ok := con.Execute();
    if !ok {
      return;
    }
    con.tables := con.tables.(claims := con.tables.claims + [NewClaim(id, project, c, r, now)]);
    if r.requiresReview {
      ok := con.Execute();
      if !ok {
        return;
      }
    }
    ok := con.Execute();
    if !ok {
      return;
    }
    ok := con.Execute();
    if !ok {
      return;
    }
    con.tables := con.tables.(embeddings := con.tables.embeddings + [OfClaim(id)]);
    ok := InsertSupport(con, id, c, Supports);
    if ok {
      ok := Finish(con, autocommit);
    }
  }

  /**
   * `commit_candidate`, any statement of which may raise. Without `autocommit`
   * nothing it does is committed, wherever it stops.
   */
  method CommitCandidate(
    lex: Lexicon, policy: Policy, con: Connection, c: Candidate, project: string, id: string, now: string,
      autocommit: bool)
    returns (ok: bool, result: WriteResult)
    modifies con`executed, con`tables, con`durable
    ensures con.executed >= old(con.executed) && (ok <==> !Faulty(con.raises, old(con.executed), con.executed))
    ensures ok ==> (con.tables, result) == Commit(lex, policy, old(con.tables), c, project, id, now)
    ensures !autocommit ==> con.durable == old(con.durable)
    ensures ok && autocommit ==> con.durable == con.Seen()
  {
    hide Decide, Decided, Merge, Supersede, Insert;
    ok, result := DecideWrite(lex, policy, con, c, project);
    if !ok {
      return;
    }
    ok := Audit(con, autocommit);
    if !ok {
      return;
    }
    if result.decision == MergeWithExisting && Truthy(result.matched) {
      ok := MergeClaim(con, result.matched.value, c, autocommit);
      return;
    }
    if result.decision == UpdateExisting && Truthy(result.matched) {
      ok := SupersedeClaim(con, result.matched.value, autocommit);
      if !ok {
        return;
      }
      result := WriteResult(SaveNew, ProjectMemory, result.score, None, false);
    }
    if !Saves(result.decision) {
      return;
    }
    ok := SaveClaim(con, c, result, project, id, now, autocommit);
    result := result.(matched := Some(id));
  }

  // ---------------------------------------------------------------- what a write changes

  lemma SupportedClaims(t: Tables, id: string, c: Candidate, kind: SupportType)
    ensures Supported(t, id, c, kind).claims == t.claims && Supported(t, id, c, kind).embeddings == t.embeddings
  {
  }

  /** Such a candidate always becomes one new claim pending review, and touches no other claim. */
  lemma ReviewGate(lex: Lexicon, policy: Policy, t: Tables, c: Candidate, project: string, id: string, now: string)
    requires MustWait(policy, c)
    ensures var (n, r) := Commit(lex, policy, t, c, project, id, now);
            && r.decision == NeedsHumanReview && r.requiresReview && r.matched == Some(id)
            && |n.claims| == |t.claims| + 1 && n.claims[..|t.claims|] == t.claims
            && n.claims[|t.claims|].id == id && n.claims[|t.claims|].status == PendingReview
  {
    hide FindSimilar, SaveScore, Supported;
    var r := Decide(lex, policy, t, c, project);
    SupportedClaims(
      t.(claims := t.claims + [NewClaim(id, project, c, r, now)], embeddings := t.embeddings + [OfClaim(id)]),
      id, c, Supports);
  }

  /** The stored claims a decision is about: those with the matched id. */
  predicate Concerns(r: WriteResult, claim: Claim) {
    Truthy(r.matched) && claim.id == r.matched.value
  }

  /**
   * A write leaves every claim but the matched one alone. Merging adds no claim and
   * raises the matched one's confidence and salience; a correction supersedes the
   * matched one and adds its replacement, active; nothing else supersedes anything.
   */
  lemma CommitEffect(lex: Lexicon, policy: Policy, t: Tables, c: Candidate, project: string, id: string, now: string,
      k: nat)
    requires k < |t.claims| && 0.0 <= t.claims[k].confidence <= 1.0 && 0.0 <= t.claims[k].salience <= 1.0
    ensures var d := Decide(lex, policy, t, c, project);
            var (n, r) := Commit(lex, policy, t, c, project, id, now);
            && k < |n.claims|
            && (!Concerns(d, t.claims[k]) ==> n.claims[k] == t.claims[k])
            && (Concerns(d, t.claims[k]) && c.memoryType == MemoryType.Correction ==>
                  && n.claims[k] == t.claims[k].(status := Status.Superseded)
                  && |n.claims| == |t.claims| + 1 && n.claims[|t.claims|].id == id
                       && n.claims[|t.claims|].status == Active)
            && (Concerns(d, t.claims[k]) && c.memoryType != MemoryType.Correction ==>
                  && |n.claims| == |t.claims| && n.claims[k].status == t.claims[k].status
                  && n.claims[k].confidence >= t.claims[k].confidence && n.claims[k].salience >= t.claims[k].salience
                  && (n.claims[k].salience == 1.0 || n.claims[k].salience == t.claims[k].salience + 0.08)
                  && (n.claims[k].confidence == 1.0 || n.claims[k].confidence == t.claims[k].confidence + 0.04))
  {
    hide Decide, Supported;
    var d := Decide(lex, policy, t, c, project);
    DecideKind(lex, policy, t, c, project);
    if d.decision == MergeWithExisting && Truthy(d.matched) {
      SupportedClaims(t.(claims := Mapped(t.claims, Boosted(d.matched.value))), d.matched.value, c, Corroborates);
    } else {
      var superseded := d.decision == UpdateExisting && Truthy(d.matched);
      var base := if superseded then Supersede(t, d.matched.value) else t;
      var saved := if superseded then WriteResult(SaveNew, ProjectMemory, d.score, None, false) else d;
      SupportedClaims(
        base.(claims := base.claims + [NewClaim(id, project, c, saved, now)],
              embeddings := base.embeddings + [OfClaim(id)]),
        id, c, Supports);
    }
  }

  lemma ComparableIs(t: Tables, project: string, c: Claim)
    requires c in Comparable(t, project)
    ensures c in t.claims && Live(c.status) && c.projectId == project
  {
  }

  /** The claim a decision matches is stored, and live. */
  lemma MatchedIsLive(lex: Lexicon, policy: Policy, t: Tables, c: Candidate, project: string)
    ensures var r := Decide(lex, policy, t, c, project);
            r.matched.Some? ==>
              exists k :: 0 <= k < |t.claims| && t.claims[k].id == r.matched.value && Live(t.claims[k].status)
  {
    DecidedIs(lex, policy, t, c, project);
    hide Decide, IsBest, SimilarScore, LooksContradictory, Comparable;
    var r := Decide(lex, policy, t, c, project);
    if r.matched.Some? {
      var rows := Comparable(t, project);
      var i :| 0 <= i < |rows| && IsBest(lex, c, rows, i) && rows[i].id == r.matched.value
        && SimilarScore(lex, c, rows[i]) >= policy.nearDuplicate && !LooksContradictory(lex, c, rows[i]);
      ComparableIs(t, project, rows[i]);
      var k :| 0 <= k < |t.claims| && t.claims[k] == rows[i];
    }
  }

  /** Rows that differ from live ones only, ids kept: what was not live is left, the rest stays keyed. */
  lemma OnlyTouches(was: seq<Claim>, now: seq<Claim>, id: string)
    requires Keyed(was) && exists k :: 0 <= k < |was| && was[k].id == id && Live(was[k].status)
    requires |now| == |was| && forall k :: 0 <= k < |was| ==>
               now[k].id == was[k].id && (was[k].id != id ==> now[k] == was[k])
    ensures Keyed(now) && LeavesRest(was, now)
  {
  }

  lemma MergeEndsLive(t: Tables, c: Candidate, id: string)
    requires Keyed(t.claims) && exists k :: 0 <= k < |t.claims| && t.claims[k].id == id && Live(t.claims[k].status)
    ensures var n := Merge(t, id, c).claims;
            Keyed(n) && LeavesRest(t.claims, n) && Lookup(n, id).Some? && Live(Lookup(n, id).value.status)
  {
    hide Supported;
    SupportedClaims(t.(claims := Mapped(t.claims, Boosted(id))), id, c, Corroborates);
    OnlyTouches(t.claims, Merge(t, id, c).claims, id);
    FoundLive(Merge(t, id, c).claims, id, t.claims);
  }

  lemma SaveEndsLive(t: Tables, c: Candidate, project: string, r: WriteResult, id: string, now: string)
    requires Keyed(t.claims) && !HasClaim(t.claims, id)
    ensures var n := Insert(t, id, project, c, r, now).claims;
            && Keyed(n) && t.claims <= n
            && Lookup(n, id).Some? && Live(Lookup(n, id).value.status)
  {
    hide Supported;
    SupportedClaims(
      t.(claims := t.claims + [NewClaim(id, project, c, r, now)], embeddings := t.embeddings + [OfClaim(id)]),
      id, c, Supports);
    assert forall k :: 0 <= k < |t.claims| ==> t.claims[k].id != id;
    FoundNew(Insert(t, id, project, c, r, now).claims, t.claims, NewClaim(id, project, c, r, now));
  }

  lemma SupersedeTouches(t: Tables, id: string, other: string)
    requires Keyed(t.claims) && exists k :: 0 <= k < |t.claims| && t.claims[k].id == id && Live(t.claims[k].status)
    ensures Keyed(Supersede(t, id).claims) && LeavesRest(t.claims, Supersede(t, id).claims)
    ensures !HasClaim(t.claims, other) ==> !HasClaim(Supersede(t, id).claims, other)
  {
    OnlyTouches(t.claims, Supersede(t, id).claims, id);
    assert forall k :: 0 <= k < |t.claims| ==> Supersede(t, id).claims[k].id == t.claims[k].id;
  }

  /**
   * A write touches no claim that is not live, and the claim it ends at is live: a match
   * comes from the live rows, and a new claim is active or pending review.
   */
  lemma CommitEndsLive(lex: Lexicon, policy: Policy, t: Tables, c: Candidate, project: string, id: string, now: string)
    requires Keyed(t.claims) && !HasClaim(t.claims, id)
    ensures var (n, r) := Commit(lex, policy, t, c, project, id, now);
            && Keyed(n.claims) && LeavesRest(t.claims, n.claims)
            && (Truthy(r.matched) ==>
                 Lookup(n.claims, r.matched.value).Some? && Live(Lookup(n.claims, r.matched.value).value.status))
  {
    hide Decide, Merge, Insert, Supersede, Lookup, HasClaim, Keyed;
    var d := Decide(lex, policy, t, c, project);
    DecideKind(lex, policy, t, c, project);
    MatchedIsLive(lex, policy, t, c, project);
    if d.decision == MergeWithExisting && Truthy(d.matched) {
      MergeEndsLive(t, c, d.matched.value);
    } else if d.decision == UpdateExisting && Truthy(d.matched) {
      SupersedeTouches(t, d.matched.value, id);
      SaveEndsLive(
        Supersede(t, d.matched.value), c, project, WriteResult(SaveNew, ProjectMemory, d.score, None, false), id, now);
    } else if Saves(d.decision) {
      SaveEndsLive(t, c, project, d, id, now);
    }
  }

  lemma FoundLive(claims: seq<Claim>, id: string, was: seq<Claim>)
    requires |claims| == |was| && HasClaim(was, id)
    requires forall k :: 0 <= k < |claims| ==> claims[k].id == was[k].id && (was[k].id == id ==> Live(claims[k].status))
    ensures Lookup(claims, id).Some? && Live(Lookup(claims, id).value.status)
  {
    var k :| 0 <= k < |was| && was[k].id == id;
    assert claims[k].id == id;
  }

  lemma FoundNew(claims: seq<Claim>, base: seq<Claim>, row: Claim)
    requires claims == base + [row] && forall k :: 0 <= k < |base| ==> base[k].id != row.id
    ensures Lookup(claims, row.id) == Some(row)
  {
    assert claims[|base|] == row;
  }

  /** Only merging and updating match an existing claim, updating only for corrections. */
  lemma DecideKind(lex: Lexicon, policy: Policy, t: Tables, c: Candidate, project: string)
    ensures var d := Decide(lex, policy, t, c, project);
            if d.matched.None? then d.decision != MergeWithExisting && d.decision != UpdateExisting
            else d.decision == if c.memoryType == MemoryType.Correction then UpdateExisting else MergeWithExisting
  {
    hide FindSimilar, SaveScore, LooksContradictory;
  }

  /** The claim says what the candidate says. */
  predicate Says(claim: Claim, c: Candidate) {
    && claim.subject == c.subject && claim.predicate_ == c.predicate_ && claim.object_ == c.object_
    && claim.claimText == c.claimText && claim.memoryType == c.memoryType
    && claim.confidence == c.confidence && claim.salience == c.salience && claim.sourceQuality == c.sourceQuality
  }

  /** The support cites the candidate's evidence, chunk and span. */
  predicate Cites(s: Support, c: Candidate) {
    Some(s.evidenceId) == c.evidenceId && s.chunkId == c.chunkId && s.spanId == c.spanId && s.confidence == c.confidence
  }

  /**
   * Whatever a write adds is what the candidate proposes: at most one claim, saying what
   * it says, and with evidence one link and one support span, citing it at its offsets,
   * for the claim the write ended at.
   */
  lemma WrittenAsProposed(lex: Lexicon, policy: Policy, t: Tables, c: Candidate, project: string, id: string,
      now: string)
    ensures var (n, r) := Commit(lex, policy, t, c, project, id, now);
            && |n.claims| <= |t.claims| + 1
            && (|n.claims| == |t.claims| + 1 ==>
                  && r.matched == Some(id) && n.claims[|t.claims|].id == id && n.claims[|t.claims|].projectId == project
                  && Says(n.claims[|t.claims|], c) && n.embeddings == t.embeddings + [OfClaim(id)])
            && t.links <= n.links && t.supports <= n.supports
            && |n.links| - |t.links| == |n.supports| - |t.supports|
                 == (if Truthy(c.evidenceId) && r.matched.Some? && (r.matched.value != "" || |n.claims| > |t.claims|)
                     then 1 else 0)
            && (|n.links| > |t.links| ==>
                  && Cites(n.links[|t.links|].support, c) && Some(n.links[|t.links|].support.claimId) == r.matched
                  && n.supports[|t.supports|].support == n.links[|t.links|].support
                  && n.supports[|t.supports|].charStart == c.charStart && n.supports[|t.supports|].charEnd == c.charEnd
                  && n.supports[|t.supports|].tokenStart == c.tokenStart
                       && n.supports[|t.supports|].tokenEnd == c.tokenEnd
                  && (Truthy(c.quote) ==> n.supports[|t.supports|].quote == c.quote.value))
  {
    hide Decide, Mapped;
    DecideKind(lex, policy, t, c, project);
  }
}
