/** What every run of ingestion, writes, scans, reviews, decay, touches, archiving and redaction keeps. */
module GovernanceRuns {
  import opened Options
  import opened Tokens
  import opened Chunking
  import Candidates
  import opened Store
  import opened WriteGovernor
  import opened Contradictions
  import opened Review
  import opened Lifecycle
  import opened Retention
  import opened EvidenceIngest
  import opened Integrity

  /** The functions and the policy a run is governed by. */
  datatype Setting = Setting(
    word: WordClass, sha: Sha, governor: WriteGovernor.Lexicon, detector: Contradictions.Lexicon, policy: Policy)

  datatype Step =
    | IngestEvidence(text: string, source: Source, ids: NewIds)
    | CommitClaim(candidate: Candidates.Candidate, project: string, id: string, now: string)
    | ScanClaim(id: string)
    | ReviewAct(id: string, action: string)
    | ReviewSource(evidenceId: string, action: string)
    | DecayAll(age: string -> int, project: string)
    | TouchOne(id: string, boost: real)
    | ArchiveAll(project: string)
    | RedactSource(evidenceId: string)

  function Apply(s: Setting, t: Tables, step: Step): Tables {
    match step
    case IngestEvidence(text, source, ids) => Ingest(s.word, s.sha, t, text, source, ids).0
    case CommitClaim(c, project, id, now) => Commit(s.governor, s.policy, t, c, project, id, now).0
    case ScanClaim(id) => Scan(s.detector, t, id)
    case ReviewAct(id, action) => ActOn(t, id, action).0
    case ReviewSource(id, action) => ReviewOf(t, id, action).0
    case DecayAll(age, project) => RunDecay(s.policy, age, t, project)
    case TouchOne(id, boost) => Touch(t, id, boost)
    case ArchiveAll(project) => ArchiveProject(t, project)
    case RedactSource(id) => Redact(s.sha, t, id).0
  }

  ghost predicate NewChunkIds(rows: seq<TextChunk>, chunk: nat -> string) {
    && (forall m: nat, n: nat :: m != n ==> chunk(m) != chunk(n))
    && (forall k, n: nat :: 0 <= k < |rows| ==> rows[k].id != chunk(n))
  }

  /** What a step relies on: drawn ids are new, candidates are in range, and a touch does not go below zero. */
  ghost predicate Proper(t: Tables, step: Step) {
    match step
    case IngestEvidence(_, _, ids) =>
      (forall e :: e in t.evidence ==> e.id != ids.evidence) && NewChunkIds(t.chunks, ids.chunk)
    case CommitClaim(c, _, id, _) => !HasClaim(t.claims, id) && Candidates.InRange(c)
    case TouchOne(id, boost) =>
      forall k :: 0 <= k < |t.claims| && t.claims[k].id == id ==> t.claims[k].salience + boost >= 0.0
    case _ => true
  }

  // ---------------------------------------------------------------- how tables may change

  /** Everything but status, confidence and salience is the same. */
  predicate SameClaim(a: Claim, b: Claim) {
    b == a.(status := b.status, confidence := b.confidence, salience := b.salience)
  }

  predicate SameEvidence(a: Evidence, b: Evidence) {
    b == a.(reviewStatus := b.reviewStatus)
  }

  /** No claim, link, support span, contradiction, embedding or source is lost, and what a claim says never changes. */
  ghost predicate Evolves(a: Tables, b: Tables) {
    && |a.claims| <= |b.claims| && (forall k :: 0 <= k < |a.claims| ==> SameClaim(a.claims[k], b.claims[k]))
    && a.links <= b.links && a.supports <= b.supports && a.contradictions <= b.contradictions
         && a.embeddings <= b.embeddings
    && |a.evidence| <= |b.evidence|
         && (forall k :: 0 <= k < |a.evidence| ==> SameEvidence(a.evidence[k], b.evidence[k]))
  }

  lemma EvolvesTransitive(a: Tables, b: Tables, c: Tables)
    requires Evolves(a, b) && Evolves(b, c)
    ensures Evolves(a, c)
  {
    forall k | 0 <= k < |a.claims| ensures SameClaim(a.claims[k], c.claims[k]) {
      assert SameClaim(b.claims[k], c.claims[k]);
    }
    forall k | 0 <= k < |a.evidence| ensures SameEvidence(a.evidence[k], c.evidence[k]) {
      assert SameEvidence(b.evidence[k], c.evidence[k]);
    }
  }

  /** The invariant holds after, and nothing was lost on the way. */
  ghost predicate Good(sha: Sha, a: Tables, b: Tables) {
    Kept(sha, b) && Evolves(a, b)
  }

  // ---------------------------------------------------------------- changes to claims

  predicate InUnit(c: Claim) {
    0.0 <= c.confidence <= 1.0 && 0.0 <= c.salience <= 1.0
  }

  /** An update of claims that keeps what they say and their ranges keeps everything. */
  lemma ClaimsMapped(sha: Sha, t: Tables, f: Claim -> Claim)
    requires Kept(sha, t)
    requires forall k :: 0 <= k < |t.claims| ==> SameClaim(t.claims[k], f(t.claims[k])) && InUnit(f(t.claims[k]))
    ensures Good(sha, t, t.(claims := Mapped(t.claims, f)))
  {
    hide SpansKept, EvidenceKept, SnapshotsKept, OncePerPair;
    var n := t.(claims := Mapped(t.claims, f));
    forall k | 0 <= k < |t.claims| ensures n.claims[k].id == t.claims[k].id && SameClaim(t.claims[k], n.claims[k]) {
      assert SameClaim(t.claims[k], f(t.claims[k]));
    }
    MappedLinks(t, n);
    SpansSame(sha, t, n);
  }

  lemma MappedLinks(t: Tables, n: Tables)
    requires LinksMatch(t) && n.links == t.links && n.supports == t.supports && |t.claims| <= |n.claims|
    requires forall k :: 0 <= k < |t.claims| ==> n.claims[k].id == t.claims[k].id
    ensures LinksMatch(n)
  {
    forall k | 0 <= k < |n.links| ensures HasClaim(n.claims, n.links[k].support.claimId) {
      assert HasClaim(t.claims, t.links[k].support.claimId);
      var i :| 0 <= i < |t.claims| && t.claims[i].id == t.links[k].support.claimId;
      assert n.claims[i].id == t.links[k].support.claimId;
    }
  }

  lemma SpansSame(sha: Sha, t: Tables, n: Tables)
    requires SpansKept(sha, t) && n.spans == t.spans && n.chunks == t.chunks
    ensures SpansKept(sha, n)
  {
  }

  lemma Unchanged(sha: Sha, t: Tables)
    requires Kept(sha, t)
    ensures Good(sha, t, t)
  {
  }

  // ---------------------------------------------------------------- writes

  lemma SupportedKeeps(sha: Sha, t: Tables, id: string, c: Candidates.Candidate, kind: SupportType)
    requires Kept(sha, t) && HasClaim(t.claims, id)
    ensures Good(sha, t, Supported(t, id, c, kind))
  {
    hide SpansKept, EvidenceKept, SnapshotsKept, OncePerPair, Keyed, RangesKept;
    var n := Supported(t, id, c, kind);
    if Truthy(c.evidenceId) {
      assert n.links[|t.links|].support == n.supports[|t.supports|].support;
      forall k | 0 <= k < |n.links| ensures HasClaim(n.claims, n.links[k].support.claimId) {
        assert k < |t.links| ==> HasClaim(t.claims, t.links[k].support.claimId);
      }
    }
    SpansSame(sha, t, n);
  }

  lemma AppendedKeeps(sha: Sha, t: Tables, c: Claim)
    requires Kept(sha, t) && !HasClaim(t.claims, c.id) && InUnit(c)
    ensures Good(sha, t, t.(claims := t.claims + [c], embeddings := t.embeddings + [OfClaim(c.id)]))
  {
    hide SpansKept, EvidenceKept, SnapshotsKept, OncePerPair;
    var n := t.(claims := t.claims + [c], embeddings := t.embeddings + [OfClaim(c.id)]);
    forall k | 0 <= k < |n.claims| ensures OfClaim(n.claims[k].id) in n.embeddings {
      assert k < |t.claims| ==> OfClaim(t.claims[k].id) in t.embeddings;
    }
    MappedLinks(t, n);
    SpansSame(sha, t, n);
  }

  lemma InsertKeeps(sha: Sha, t: Tables, id: string, project: string, c: Candidates.Candidate, r: WriteResult,
      now: string)
    requires Kept(sha, t) && !HasClaim(t.claims, id) && Candidates.InRange(c)
    ensures Good(sha, t, Insert(t, id, project, c, r, now))
  {
    hide Kept, Supported, Evolves;
    var claim := NewClaim(id, project, c, r, now);
    var n := t.(claims := t.claims + [claim], embeddings := t.embeddings + [OfClaim(id)]);
    AppendedKeeps(sha, t, claim);
    assert n.claims[|t.claims|].id == id;
    SupportedKeeps(sha, n, id, c, Supports);
    EvolvesTransitive(t, n, Supported(n, id, c, Supports));
  }

  lemma MergeKeeps(sha: Sha, t: Tables, id: string, c: Candidates.Candidate)
    requires Kept(sha, t) && HasClaim(t.claims, id)
    ensures Good(sha, t, Merge(t, id, c))
  {
    hide Supported, Evolves;
    var n := t.(claims := Mapped(t.claims, Boosted(id)));
    ClaimsMapped(sha, t, Boosted(id));
    var k :| 0 <= k < |t.claims| && t.claims[k].id == id;
    assert n.claims[k].id == id;
    SupportedKeeps(sha, n, id, c, Corroborates);
    EvolvesTransitive(t, n, Merge(t, id, c));
  }

  lemma SupersedeKeeps(sha: Sha, t: Tables, id: string)
    requires Kept(sha, t)
    ensures Good(sha, t, Supersede(t, id))
    ensures forall other :: HasClaim(Supersede(t, id).claims, other) ==> HasClaim(t.claims, other)
  {
    hide Evolves;
    ClaimsMapped(sha, t, SupersededBy(id));
    var n := Supersede(t, id);
    forall other | HasClaim(n.claims, other) ensures HasClaim(t.claims, other) {
      var k :| 0 <= k < |n.claims| && n.claims[k].id == other;
      assert t.claims[k].id == other;
    }
  }

  lemma MatchedStored(s: Setting, t: Tables, c: Candidates.Candidate, project: string)
    ensures var r := Decide(s.governor, s.policy, t, c, project); r.matched.Some? ==>
              HasClaim(t.claims, r.matched.value)
  {
    hide Decide;
    MatchedIsLive(s.governor, s.policy, t, c, project);
  }

  lemma CommitKeeps(s: Setting, t: Tables, c: Candidates.Candidate, project: string, id: string, now: string)
    requires Kept(s.sha, t) && !HasClaim(t.claims, id) && Candidates.InRange(c)
    ensures Good(s.sha, t, Commit(s.governor, s.policy, t, c, project, id, now).0)
  {
    hide Kept, Evolves, Decide, Merge, Insert, Supersede, HasClaim;
    var r := Decide(s.governor, s.policy, t, c, project);
    MatchedStored(s, t, c, project);
    if r.decision == MergeWithExisting && Truthy(r.matched) {
      MergeKeeps(s.sha, t, r.matched.value, c);
    } else if r.decision == UpdateExisting && Truthy(r.matched) {
      SupersedeKeeps(s.sha, t, r.matched.value);
      var saved := WriteResult(SaveNew, ProjectMemoryLevel(), r.score, None, false);
      InsertKeeps(s.sha, Supersede(t, r.matched.value), id, project, c, saved, now);
      EvolvesTransitive(
        t, Supersede(t, r.matched.value), Insert(Supersede(t, r.matched.value), id, project, c, saved, now));
    } else if Saves(r.decision) {
      InsertKeeps(s.sha, t, id, project, c, r, now);
    } else {
      Unchanged(s.sha, t);
    }
  }

  lemma MergeEvolves(t: Tables, id: string, c: Candidates.Candidate)
    ensures Evolves(t, Merge(t, id, c)) && |Merge(t, id, c).claims| == |t.claims|
  {
  }

  lemma SaveEvolves(t: Tables, id: string, project: string, c: Candidates.Candidate, r: WriteResult, now: string)
    ensures var n := Insert(t, id, project, c, r, now);
            && Evolves(t, n) && |n.claims| == |t.claims| + 1
            && n.claims[|t.claims|].confidence == c.confidence && n.claims[|t.claims|].salience == c.salience
  {
  }

  lemma SupersedeEvolves(t: Tables, id: string)
    ensures Evolves(t, Supersede(t, id)) && |Supersede(t, id).claims| == |t.claims|
  {
  }

  lemma OutOfRange(sha: Sha, t: Tables, k: nat)
    requires k < |t.claims| && !InUnit(t.claims[k])
    ensures !Kept(sha, t)
  {
    hide SpansKept, EvidenceKept, SnapshotsKept, OncePerPair, Keyed, Embedded, LinksMatch;
  }

  /**
   * A write of any candidate loses nothing, and keeps the invariant exactly when the
   * candidate, if it is saved rather than merged or dropped, is in range.
   */
  lemma CommitKeepsIff(s: Setting, t: Tables, c: Candidates.Candidate, project: string, id: string, now: string)
    requires Kept(s.sha, t) && !HasClaim(t.claims, id)
    ensures var n := Commit(s.governor, s.policy, t, c, project, id, now).0;
            && Evolves(t, n)
            && (|n.claims| > |t.claims| && !Candidates.InRange(c) ==> !InUnit(n.claims[|t.claims|]))
            && (Kept(s.sha, n) <==> (|n.claims| > |t.claims| ==> Candidates.InRange(c)))
  {
    hide Kept, Evolves, Decide, Merge, Insert, Supersede, HasClaim;
    if Candidates.InRange(c) {
      CommitKeeps(s, t, c, project, id, now);
    } else {
      var n := Commit(s.governor, s.policy, t, c, project, id, now).0;
      var r := Decide(s.governor, s.policy, t, c, project);
      MatchedStored(s, t, c, project);
      if r.decision == MergeWithExisting && Truthy(r.matched) {
        MergeEvolves(t, r.matched.value, c);
        MergeKeeps(s.sha, t, r.matched.value, c);
      } else if r.decision == UpdateExisting && Truthy(r.matched) {
        var saved := WriteResult(SaveNew, ProjectMemoryLevel(), r.score, None, false);
        SupersedeEvolves(t, r.matched.value);
        SaveEvolves(Supersede(t, r.matched.value), id, project, c, saved, now);
        EvolvesTransitive(t, Supersede(t, r.matched.value), n);
        OutOfRange(s.sha, n, |t.claims|);
      } else if Saves(r.decision) {
        SaveEvolves(t, id, project, c, r, now);
        OutOfRange(s.sha, n, |t.claims|);
      } else {
        Unchanged(s.sha, t);
      }
    }
  }

  function ProjectMemoryLevel(): Candidates.MemoryLevel {
    Candidates.ProjectMemory
  }

  // ---------------------------------------------------------------- contradictions

  lemma RecordKeeps(sha: Sha, t: Tables, a: string, b: string)
    requires Kept(sha, t) && a != b
    ensures Good(sha, t, Record(t, a, b))
  {
    hide Evolves, Kept;
    if OnRecord(t.contradictions, a, b) {
      Unchanged(sha, t);
    } else {
      DisputeKeeps(sha, t, a, b);
      var n := t.(claims := Mapped(t.claims, DisputedBy(a, b)));
      OnRecordIsPair(t.contradictions, a, b);
      AddContradiction(sha, n, a, b);
      EvolvesTransitive(t, n, Record(t, a, b));
    }
  }

  lemma DisputeKeeps(sha: Sha, t: Tables, a: string, b: string)
    requires Kept(sha, t)
    ensures Good(sha, t, t.(claims := Mapped(t.claims, DisputedBy(a, b))))
  {
    hide Evolves;
    ClaimsMapped(sha, t, DisputedBy(a, b));
  }

  lemma AddContradiction(sha: Sha, t: Tables, a: string, b: string)
    requires Kept(sha, t) && a != b && {a, b} !in PairsOf(t.contradictions)
    ensures Good(sha, t, t.(contradictions := t.contradictions + [ContradictionRow(a, b, false)]))
  {
    hide SpansKept, EvidenceKept, SnapshotsKept, Keyed, RangesKept, PairsOf, OncePerPair;
    OnceAppend(t.contradictions, a, b);
    var n := t.(contradictions := t.contradictions + [ContradictionRow(a, b, false)]);
    SpansSame(sha, t, n);
    MappedLinks(t, n);
  }

  lemma {:induction false} ScanFromKeeps(s: Setting, t: Tables, c: Claim, rivals: seq<Claim>)
    requires Kept(s.sha, t) && forall k :: 0 <= k < |rivals| ==> rivals[k].id != c.id
    ensures Good(s.sha, t, ScanFrom(s.detector, t, c, rivals))
    decreases |rivals|
  {
    hide Kept, Evolves, Record, Detect;
    if rivals == [] {
      Unchanged(s.sha, t);
    } else if Detect(s.detector, c, rivals[0]).Some? {
      RecordKeeps(s.sha, t, c.id, rivals[0].id);
      var n := Record(t, c.id, rivals[0].id);
      ScanFromKeeps(s, n, c, rivals[1..]);
      EvolvesTransitive(t, n, ScanFrom(s.detector, t, c, rivals));
    } else {
      ScanFromKeeps(s, t, c, rivals[1..]);
    }
  }

  lemma ScanKeeps(s: Setting, t: Tables, id: string)
    requires Kept(s.sha, t)
    ensures Good(s.sha, t, Scan(s.detector, t, id))
  {
    hide Kept, Evolves, ScanFrom;
    match Lookup(t.claims, id) {
      case None => Unchanged(s.sha, t);
      case Some(c) =>
        RivalsDiffer(s.detector, t, c);
        ScanFromKeeps(s, t, c, Rivals(s.detector, t, c));
    }
  }

  // ---------------------------------------------------------------- review, decay, touch, archive

  lemma ActKeeps(sha: Sha, t: Tables, id: string, action: string)
    requires Kept(sha, t)
    ensures Good(sha, t, ActOn(t, id, action).0)
  {
    hide Evolves;
    if StatusFor(action).None? || Lookup(t.claims, id).None? {
      Unchanged(sha, t);
    } else {
      var c := Lookup(t.claims, id).value;
      ReviewRange(sha, t, c, action);
      ClaimsMapped(sha, t, Reviewed(id, StatusFor(action).value, ConfidenceAfter(action, c.confidence)));
    }
  }

  lemma ReviewRange(sha: Sha, t: Tables, c: Claim, action: string)
    requires Kept(sha, t) && c in t.claims
    ensures 0.0 <= ConfidenceAfter(action, c.confidence) <= 1.0
    ensures forall k :: 0 <= k < |t.claims| ==> InUnit(t.claims[k])
  {
    var k :| 0 <= k < |t.claims| && t.claims[k] == c;
  }

  lemma DecayKeeps(s: Setting, t: Tables, age: string -> int, project: string)
    requires Kept(s.sha, t)
    ensures Good(s.sha, t, RunDecay(s.policy, age, t, project))
  {
    hide Evolves;
    ClaimsMapped(s.sha, t, DecayStep(s.policy, age, project));
  }

  lemma TouchKeeps(sha: Sha, t: Tables, id: string, boost: real)
    requires Kept(sha, t)
    requires forall k :: 0 <= k < |t.claims| && t.claims[k].id == id ==> t.claims[k].salience + boost >= 0.0
    ensures Good(sha, t, Touch(t, id, boost))
  {
    hide Evolves;
    ClaimsMapped(sha, t, Touched(id, boost));
  }

  lemma ArchiveKeeps(sha: Sha, t: Tables, project: string)
    requires Kept(sha, t)
    ensures Good(sha, t, ArchiveProject(t, project))
  {
    hide Evolves;
    ClaimsMapped(sha, t, Retention.ArchiveStep(project));
  }

  // ---------------------------------------------------------------- evidence

  lemma EvidenceMapped(sha: Sha, t: Tables, id: string, after: ReviewStatus)
    requires Kept(sha, t)
    ensures Good(sha, t, t.(evidence := Mapped(t.evidence, EvidenceReviewed(id, after))))
  {
    hide SnapshotsKept, OncePerPair, Keyed, RangesKept;
    var n := t.(evidence := Mapped(t.evidence, EvidenceReviewed(id, after)));
    SpansSame(sha, t, n);
    hide SpansKept;
    MappedLinks(t, n);
  }

  lemma ReviewOfKeeps(sha: Sha, t: Tables, id: string, action: string)
    requires Kept(sha, t)
    ensures Good(sha, t, ReviewOf(t, id, action).0)
  {
    hide Evolves, Kept;
    if EvidenceStatusFor(action).Some? {
      EvidenceMapped(sha, t, id, EvidenceStatusFor(action).value);
    }
    Unchanged(sha, t);
  }

  /** Redacting texts keeps every hash and every span's text in step with its chunk. */
  lemma RedactTexts(sha: Sha, t: Tables, id: string)
    requires Kept(sha, t)
    ensures Good(sha, t, t.(snapshots := Mapped(t.snapshots, RedactSnapshot(sha, id)),
                            chunks := Mapped(t.chunks, RedactChunk(id)),
                            spans := Mapped(t.spans, RedactSpan(sha, id))))
  {
    hide OncePerPair, Keyed, RangesKept, EvidenceKept;
    var n := t.(snapshots := Mapped(t.snapshots, RedactSnapshot(sha, id)),
                chunks := Mapped(t.chunks, RedactChunk(id)),
                spans := Mapped(t.spans, RedactSpan(sha, id)));
    MappedLinks(t, n);
    RedactedSpans(sha, t, n, id);
    hide SpansKept;
  }

  lemma RedactedSpans(sha: Sha, t: Tables, n: Tables, id: string)
    requires SpansKept(sha, t) && n.chunks == Mapped(t.chunks, RedactChunk(id))
               && n.spans == Mapped(t.spans, RedactSpan(sha, id))
    ensures SpansKept(sha, n)
  {
    forall k | 0 <= k < |n.spans|
      ensures n.spans[k].textSha256 == sha(n.spans[k].text)
      ensures Homed(n.spans[k], n.chunks)
    {
      assert Homed(t.spans[k], t.chunks);
      var j :| 0 <= j < |t.chunks| && Matches(t.spans[k], t.chunks[j]);
      assert Matches(n.spans[k], n.chunks[j]);
    }
  }

  lemma WithdrawKeeps(sha: Sha, t: Tables, ids: seq<string>)
    requires Kept(sha, t)
    ensures Good(sha, t, t.(claims := Mapped(t.claims, WithdrawnAll(ids))))
  {
    hide Evolves;
    ClaimsMapped(sha, t, WithdrawnAll(ids));
  }

  lemma RedactKeeps(sha: Sha, t: Tables, id: string)
    requires Kept(sha, t)
    ensures Good(sha, t, Redact(sha, t, id).0)
  {
    hide Kept, Evolves, Mapped, LinkedClaims;
    if LookupEvidence(t.evidence, id).None? {
      Unchanged(sha, t);
    } else {
      WithdrawKeeps(sha, t, LinkedClaims(t.links, id));
      var a := t.(claims := Mapped(t.claims, WithdrawnAll(LinkedClaims(t.links, id))));
      RedactTexts(sha, a, id);
      var b := a.(snapshots := Mapped(a.snapshots, RedactSnapshot(sha, id)),
                  chunks := Mapped(a.chunks, RedactChunk(id)),
                  spans := Mapped(a.spans, RedactSpan(sha, id)));
      EvidenceMapped(sha, b, id, Redacted);
      var c := b.(evidence := Mapped(b.evidence, EvidenceReviewed(id, Redacted)));
      EvolvesTransitive(t, a, b);
      EvolvesTransitive(t, b, c);
    }
  }

  lemma SourceKeeps(sha: Sha, t: Tables, text: string, src: Source, ids: NewIds)
    requires Kept(sha, t) && (forall e :: e in t.evidence ==> e.id != ids.evidence)
    requires FindEvidence(t.evidence, src.project, sha(text)).None?
    ensures Good(sha, t, WithSource(sha, t, text, src, ids))
  {
    hide OncePerPair, Keyed, RangesKept;
    var n := WithSource(sha, t, text, src, ids);
    MappedLinks(t, n);
    SpansSame(sha, t, n);
    hide SpansKept;
    forall k | 0 <= k < |t.evidence|
      ensures t.evidence[k].id != ids.evidence
                && !(t.evidence[k].projectId == src.project && t.evidence[k].sha256 == sha(text))
    {
      assert t.evidence[k] in t.evidence;
    }
  }

  lemma ChunksKeep(sha: Sha, t: Tables, chunks: seq<Chunk>, ids: NewIds, quality: real)
    requires Kept(sha, t) && NewChunkIds(t.chunks, ids.chunk)
    requires forall k :: 0 <= k < |chunks| ==> chunks[k].index == k
    ensures Good(sha, t, WithChunks(sha, t, chunks, ids, quality))
  {
    hide OncePerPair, Keyed, RangesKept, EvidenceKept, SnapshotsKept;
    var n := WithChunks(sha, t, chunks, ids, quality);
    MappedLinks(t, n);
    ChunkRowsKeyed(t.chunks, chunks, ids, quality);
    SpansAppended(sha, t, chunks, ids, quality);
    hide SpansKept;
    forall k | 0 <= k < |n.claims| ensures OfClaim(n.claims[k].id) in n.embeddings {
      assert OfClaim(t.claims[k].id) in t.embeddings;
    }
  }

  lemma ChunkRowsKeyed(rows: seq<TextChunk>, chunks: seq<Chunk>, ids: NewIds, quality: real)
    requires ChunksKeyed(rows) && NewChunkIds(rows, ids.chunk)
    requires forall k :: 0 <= k < |chunks| ==> chunks[k].index == k
    ensures ChunksKeyed(rows + Mapped(chunks, ChunkRowOf(ids, quality)))
  {
    var n := rows + Mapped(chunks, ChunkRowOf(ids, quality));
    forall j, k | 0 <= j < k < |n| ensures n[j].id != n[k].id {
      if k >= |rows| {
        assert n[k].id == ids.chunk(k - |rows|);
        if j >= |rows| {
          assert n[j].id == ids.chunk(j - |rows|);
        }
      }
    }
  }

  lemma SpansAppended(sha: Sha, t: Tables, chunks: seq<Chunk>, ids: NewIds, quality: real)
    requires SpansKept(sha, t)
    requires ChunksKeyed(t.chunks + Mapped(chunks, ChunkRowOf(ids, quality)))
    ensures SpansKept(sha, WithChunks(sha, t, chunks, ids, quality))
  {
    var n := WithChunks(sha, t, chunks, ids, quality);
    forall k | 0 <= k < |n.spans|
      ensures n.spans[k].textSha256 == sha(n.spans[k].text)
      ensures Homed(n.spans[k], n.chunks)
    {
      if k < |t.spans| {
        assert Homed(t.spans[k], t.chunks);
        var j :| 0 <= j < |t.chunks| && Matches(t.spans[k], t.chunks[j]);
        assert Matches(n.spans[k], n.chunks[j]);
      } else {
        assert Matches(n.spans[k], n.chunks[|t.chunks| + (k - |t.spans|)]);
      }
    }
  }

  lemma IngestKeeps(s: Setting, t: Tables, text: string, src: Source, ids: NewIds)
    requires Kept(s.sha, t) && (forall e :: e in t.evidence ==> e.id != ids.evidence)
               && NewChunkIds(t.chunks, ids.chunk)
    ensures Good(s.sha, t, Ingest(s.word, s.sha, t, text, src, ids).0)
  {
    hide Kept, Evolves, NewChunkIds, WithChunks, Tokenize, ChunksFrom, ChunksOf, Stretch;
    Unchanged(s.sha, t);
    var r := ChunksOf(s.word, text, src.maxTokens, src.overlapTokens);
    if r.Chunked? && src.enabled && FindEvidence(t.evidence, src.project, s.sha(text)).None? {
      SourceKeeps(s.sha, t, text, src, ids);
      var n := WithSource(s.sha, t, text, src, ids);
      ChunksAreStretches(s.word, text, src.maxTokens, src.overlapTokens);
      ChunksKeep(s.sha, n, r.chunks, ids, src.quality);
      EvolvesTransitive(t, n, WithChunks(s.sha, n, r.chunks, ids, src.quality));
    }
  }

  // ---------------------------------------------------------------- runs

  /** Each step of a governed system keeps the invariant and loses nothing. */
  lemma StepKeeps(s: Setting, t: Tables, step: Step)
    requires Kept(s.sha, t) && Proper(t, step)
    ensures Good(s.sha, t, Apply(s, t, step))
  {
    hide Good, Kept, Ingest, Commit, Scan, ActOn, ReviewOf, RunDecay, Touch, ArchiveProject, Redact;
    match step {
      case IngestEvidence(text, source, ids) => IngestKeeps(s, t, text, source, ids);
      case CommitClaim(c, project, id, now) => CommitKeeps(s, t, c, project, id, now);
      case ScanClaim(id) => ScanKeeps(s, t, id);
      case ReviewAct(id, action) => ActKeeps(s.sha, t, id, action);
      case ReviewSource(id, action) => ReviewOfKeeps(s.sha, t, id, action);
      case DecayAll(age, project) => DecayKeeps(s, t, age, project);
      case TouchOne(id, boost) => TouchKeeps(s.sha, t, id, boost);
      case ArchiveAll(project) => ArchiveKeeps(s.sha, t, project);
      case RedactSource(id) => RedactKeeps(s.sha, t, id);
    }
  }

  /** The tables after a run, provided each step was proper when it was taken. */
  ghost predicate Run(s: Setting, start: Tables, steps: seq<Step>, end: Tables)
    decreases |steps|
  {
    if steps == [] then start == end
    else Proper(start, steps[0]) && Run(s, Apply(s, start, steps[0]), steps[1..], end)
  }

  /**
   * Over every run: claims are never deleted and what they say never changes, their
   * confidence and salience stay in [0,1], and links and support spans stay one to one.
   */
  lemma {:induction false} RunKeeps(s: Setting, start: Tables, steps: seq<Step>, end: Tables)
    requires Kept(s.sha, start) && Run(s, start, steps, end)
    ensures Kept(s.sha, end) && Evolves(start, end)
    decreases |steps|
  {
    hide Kept, Evolves, Apply, Proper;
    if steps == [] {
      Unchanged(s.sha, start);
    } else {
      var next := Apply(s, start, steps[0]);
      StepKeeps(s, start, steps[0]);
      RunKeeps(s, next, steps[1..], end);
      EvolvesTransitive(start, next, end);
    }
  }

  const EMPTY := Tables([], [], [], [], [], [], [], [], [])

  /** After any run from an empty store the checker reports only unsupported claims and unresolved contradictions. */
  lemma RunReportsOnlyOpenQuestions(s: Setting, steps: seq<Step>, end: Tables, project: string)
    requires Run(s, EMPTY, steps, end)
    ensures Report(s.sha, end, project)
            == Collect(end.claims, UnsupportedIssues(end, project))
              + Collect(end.claims, UnresolvedIssues(end, project))
  {
    hide Run, Report, Collect, UnsupportedIssues, UnresolvedIssues;
    RunKeeps(s, EMPTY, steps, end);
    OnlyOpenQuestions(s.sha, end, project);
  }

  /** A claim written with evidence is linked from then on, so it is never reported unsupported. */
  lemma LinkedStaysLinked(s: Setting, start: Tables, steps: seq<Step>, end: Tables, project: string, id: string)
    requires Kept(s.sha, start) && Run(s, start, steps, end) && HasLink(start.links, id)
    ensures HasLink(end.links, id)
    ensures UnsupportedClaim(id) !in Collect(end.claims, UnsupportedIssues(end, project))
  {
    hide Kept, Run, Collect, UnsupportedIssues;
    RunKeeps(s, start, steps, end);
    var k :| 0 <= k < |start.links| && start.links[k].support.claimId == id;
    assert end.links[k] == start.links[k];
    UnsupportedReported(end, project, id);
  }

  lemma SupportedLinks(t: Tables, id: string, c: Candidates.Candidate, kind: SupportType)
    requires Truthy(c.evidenceId)
    ensures HasLink(Supported(t, id, c, kind).links, id)
  {
    var n := Supported(t, id, c, kind);
    assert n.links[|t.links|].support.claimId == id;
  }

  /** Whatever claim a write with evidence ends at is linked afterwards. */
  lemma CommitLinks(s: Setting, t: Tables, c: Candidates.Candidate, project: string, id: string, now: string)
    requires Truthy(c.evidenceId)
    ensures var (n, r) := Commit(s.governor, s.policy, t, c, project, id, now);
            Truthy(r.matched) ==> HasLink(n.links, r.matched.value)
  {
    hide Decide, Mapped, Supported, HasLink;
    var r := Decide(s.governor, s.policy, t, c, project);
    DecideMatches(s, t, c, project);
    if r.decision == MergeWithExisting && Truthy(r.matched) {
      SupportedLinks(t.(claims := Mapped(t.claims, Boosted(r.matched.value))), r.matched.value, c, Corroborates);
    } else {
      var superseded := r.decision == UpdateExisting && Truthy(r.matched);
      var base := if superseded then Supersede(t, r.matched.value) else t;
      var saved := if superseded then WriteResult(SaveNew, ProjectMemoryLevel(), r.score, None, false) else r;
      SupportedLinks(
        base.(claims := base.claims + [NewClaim(id, project, c, saved, now)],
              embeddings := base.embeddings + [OfClaim(id)]),
        id, c, Supports);
    }
  }

  lemma DecideMatches(s: Setting, t: Tables, c: Candidates.Candidate, project: string)
    ensures var r := Decide(s.governor, s.policy, t, c, project);
            r.matched.Some? ==> r.decision == MergeWithExisting || r.decision == UpdateExisting
  {
    hide FindSimilar, SaveScore, LooksContradictory;
  }

  // ---------------------------------------------------------------- which claims are unsupported

  /** The step is a write with evidence that ends at this claim. */
  predicate WritesFor(s: Setting, t: Tables, step: Step, id: string) {
    step.CommitClaim? && Truthy(step.candidate.evidenceId)
    && var (n, r) := Commit(s.governor, s.policy, t, step.candidate, step.project, step.id, step.now);
       r.matched == Some(id) && (id != "" || |n.claims| > |t.claims|)
  }

  ghost predicate EverWritten(s: Setting, t: Tables, steps: seq<Step>, id: string)
    decreases |steps|
  {
    steps != [] && (WritesFor(s, t, steps[0], id) || EverWritten(s, Apply(s, t, steps[0]), steps[1..], id))
  }

  lemma {:induction false} ScanFromSameLinks(s: Setting, t: Tables, c: Claim, rivals: seq<Claim>)
    ensures ScanFrom(s.detector, t, c, rivals).links == t.links
    decreases |rivals|
  {
    hide Detect;
    if rivals != [] {
      ScanFromSameLinks(
        s, if Detect(s.detector, c, rivals[0]).Some? then Record(t, c.id, rivals[0].id) else t, c, rivals[1..]);
    }
  }

  /** Only writes touch the links. */
  lemma OtherSameLinks(s: Setting, t: Tables, step: Step)
    requires !step.CommitClaim?
    ensures Apply(s, t, step).links == t.links
  {
    hide ChunksOf, FindEvidence, Mapped, Detect, LinkedClaims, ScanFrom;
    if step.ScanClaim? && Lookup(t.claims, step.id).Some? {
      var c := Lookup(t.claims, step.id).value;
      ScanFromSameLinks(s, t, c, Rivals(s.detector, t, c));
    }
  }

  lemma HasLinkAppend(links: seq<Link>, l: Link, id: string)
    ensures HasLink(links + [l], id) <==> HasLink(links, id) || l.support.claimId == id
  {
    var n := links + [l];
    if HasLink(links, id) {
      var k :| 0 <= k < |links| && links[k].support.claimId == id;
      assert n[k] == links[k];
    }
    assert n[|links|] == l;
  }

  /** A step leaves a claim linked exactly when it was, or is now written with evidence. */
  lemma StepLinksIff(s: Setting, t: Tables, step: Step, id: string)
    ensures HasLink(Apply(s, t, step).links, id) <==> HasLink(t.links, id) || WritesFor(s, t, step, id)
  {
    hide Commit, HasLink;
    match step {
      case CommitClaim(c, project, newId, now) =>
        WrittenAsProposed(s.governor, s.policy, t, c, project, newId, now);
        var (n, r) := Commit(s.governor, s.policy, t, c, project, newId, now);
        hide Cites, Says;
        if |n.links| > |t.links| {
          assert n.links == t.links + [n.links[|t.links|]];
          HasLinkAppend(t.links, n.links[|t.links|], id);
        } else {
          assert n.links == t.links;
        }
      case _ => OtherSameLinks(s, t, step);
    }
  }

  lemma {:induction false} LinkedIff(s: Setting, start: Tables, steps: seq<Step>, end: Tables, id: string)
    requires Run(s, start, steps, end)
    ensures HasLink(end.links, id) <==> HasLink(start.links, id) || EverWritten(s, start, steps, id)
    decreases |steps|
  {
    hide Apply, Proper, HasLink, WritesFor;
    if steps != [] {
      StepLinksIff(s, start, steps[0], id);
      LinkedIff(s, Apply(s, start, steps[0]), steps[1..], end, id);
    }
  }

  lemma NotAmongUnresolved(t: Tables, project: string, id: string)
    ensures UnsupportedClaim(id) !in Collect(t.claims, UnresolvedIssues(t, project))
  {
    hide Tally, OpenFor;
    CollectMember(t.claims, UnresolvedIssues(t, project), UnsupportedClaim(id));
  }

  /**
   * After every run from an empty store a claim is reported unsupported exactly when it is
   * live, of the project, and no write with evidence ended at it.
   */
  lemma RunReportsUnsupportedIff(s: Setting, steps: seq<Step>, end: Tables, project: string, id: string)
    requires Run(s, EMPTY, steps, end)
    ensures UnsupportedClaim(id) in Report(s.sha, end, project) <==>
              && (exists k :: 0 <= k < |end.claims| && end.claims[k].id == id && end.claims[k].projectId == project
                   && Live(end.claims[k].status))
              && !EverWritten(s, EMPTY, steps, id)
  {
    hide Run, Report, Collect, UnsupportedIssues, UnresolvedIssues, EverWritten, HasLink;
    RunReportsOnlyOpenQuestions(s, steps, end, project);
    UnsupportedReported(end, project, id);
    NotAmongUnresolved(end, project, id);
    LinkedIff(s, EMPTY, steps, end, id);
    NoLinks(id);
  }

  lemma NoLinks(id: string)
    ensures !HasLink(EMPTY.links, id)
  {
  }
}
