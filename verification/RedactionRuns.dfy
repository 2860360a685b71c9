/** What redaction hides, and exactly which later steps bring it back. */
module RedactionRuns {
  import opened Options
  import opened Store
  import opened WriteGovernor
  import opened Contradictions
  import opened Review
  import opened Lifecycle
  import opened Retention
  import opened EvidenceIngest
  import opened Integrity
  import opened GovernanceRuns
  import Chunking
  import Results
  import opened Retrieval

  /** The source is stored, and no search admits its chunks. */
  ghost predicate SourceShut(t: Tables, evidenceId: string) {
    && (exists k :: 0 <= k < |t.evidence| && t.evidence[k].id == evidenceId)
    && forall k :: 0 <= k < |t.evidence| && t.evidence[k].id == evidenceId ==>
         t.evidence[k].reviewStatus == Redacted || t.evidence[k].reviewStatus == EvidenceRejected
  }

  /** The claim is stored, and no search with the default statuses admits it. */
  ghost predicate ClaimShut(t: Tables, id: string) {
    HasClaim(t.claims, id) && forall k :: 0 <= k < |t.claims| && t.claims[k].id == id ==> !Live(t.claims[k].status)
  }

  ghost predicate Hidden(t: Tables, evidenceId: string, ids: seq<string>) {
    SourceShut(t, evidenceId) && forall id :: id in ids ==> ClaimShut(t, id)
  }

  const REVIVING := {"accept", "verify", "restore", "dispute"}

  /** The steps that bring a claim back: four review actions on it, and a scan of it that finds a new contradiction. */
  ghost predicate Revives(s: Setting, t: Tables, step: Step, id: string) {
    match step
    case ReviewAct(claimId, action) => claimId == id && action in REVIVING
    case ScanClaim(claimId) =>
      claimId == id && Lookup(t.claims, id).Some? && !AllOnRecord(s.detector, t, Lookup(t.claims, id).value)
    case _ => false
  }

  /** The steps that bring any of it back: approving the source, and whatever revives one of the claims. */
  ghost predicate Reopens(s: Setting, t: Tables, step: Step, evidenceId: string, ids: seq<string>) {
    step == ReviewSource(evidenceId, "approve") || exists id :: id in ids && Revives(s, t, step, id)
  }

  // ---------------------------------------------------------------- one step

  /** A source whose review status is set stays shut exactly when it is set to redacted or rejected. */
  lemma MappedSource(t: Tables, evidenceId: string, id: string, after: ReviewStatus)
    requires SourceShut(t, evidenceId)
    ensures SourceShut(t.(evidence := Mapped(t.evidence, EvidenceReviewed(id, after))), evidenceId)
            <==> id != evidenceId || after == Redacted || after == EvidenceRejected
  {
    var n := t.(evidence := Mapped(t.evidence, EvidenceReviewed(id, after)));
    var k :| 0 <= k < |t.evidence| && t.evidence[k].id == evidenceId;
    assert n.evidence[k].id == evidenceId;
    assert id == evidenceId ==> n.evidence[k].reviewStatus == after;
  }

  lemma SameSources(t: Tables, n: Tables, evidenceId: string)
    requires SourceShut(t, evidenceId) && n.evidence == t.evidence
    ensures SourceShut(n, evidenceId)
  {
  }

  lemma IngestSources(s: Setting, t: Tables, step: Step, evidenceId: string)
    requires step.IngestEvidence? && Proper(t, step) && SourceShut(t, evidenceId)
    ensures SourceShut(Apply(s, t, step), evidenceId) && Apply(s, t, step).claims == t.claims
  {
    hide Chunking.ChunksOf, FindEvidence, Mapped, NewChunkIds;
    var n := Apply(s, t, step);
    assert n.evidence == t.evidence || n.evidence[..|t.evidence|] == t.evidence;
    var k :| 0 <= k < |t.evidence| && t.evidence[k].id == evidenceId;
    assert t.evidence[k] in t.evidence && n.evidence[k] == t.evidence[k];
  }

  lemma CommitSources(s: Setting, t: Tables, step: Step)
    requires step.CommitClaim?
    ensures Apply(s, t, step).evidence == t.evidence
  {
    hide Decide, Mapped;
  }

  lemma {:induction false} ScanFromSources(s: Setting, t: Tables, c: Claim, rivals: seq<Claim>)
    ensures ScanFrom(s.detector, t, c, rivals).evidence == t.evidence
    decreases |rivals|
  {
    hide Detect;
    if rivals != [] {
      ScanFromSources(
        s, if Detect(s.detector, c, rivals[0]).Some? then Record(t, c.id, rivals[0].id) else t, c, rivals[1..]);
    }
  }

  lemma ScanSources(s: Setting, t: Tables, id: string)
    ensures Scan(s.detector, t, id).evidence == t.evidence
  {
    if Lookup(t.claims, id).Some? {
      var c := Lookup(t.claims, id).value;
      ScanFromSources(s, t, c, Rivals(s.detector, t, c));
    }
  }

  /** Of the nine steps only approving it brings a redacted or rejected source back. */
  lemma SourceStepIff(s: Setting, t: Tables, step: Step, evidenceId: string)
    requires Proper(t, step) && SourceShut(t, evidenceId)
    ensures SourceShut(Apply(s, t, step), evidenceId) <==> step != ReviewSource(evidenceId, "approve")
  {
    hide SourceShut, Ingest, Commit, Scan, Proper, Mapped;
    match step {
      case IngestEvidence(_, _, _) => IngestSources(s, t, step, evidenceId);
      case CommitClaim(_, _, _, _) =>
        CommitSources(s, t, step);
        SameSources(t, Apply(s, t, step), evidenceId);
      case ScanClaim(id) =>
        ScanSources(s, t, id);
        SameSources(t, Apply(s, t, step), evidenceId);
      case ReviewSource(id, action) => ReviewSourceIff(t, id, action, evidenceId);
      case RedactSource(id) => RedactSources(s, t, id, evidenceId);
      case _ => SameSources(t, Apply(s, t, step), evidenceId);
    }
  }

  lemma StoredSource(t: Tables, evidenceId: string)
    requires SourceShut(t, evidenceId)
    ensures LookupEvidence(t.evidence, evidenceId).Some?
  {
    var k :| 0 <= k < |t.evidence| && t.evidence[k].id == evidenceId;
    assert t.evidence[k] in t.evidence;
  }

  lemma ReviewSourceIff(t: Tables, id: string, action: string, evidenceId: string)
    requires SourceShut(t, evidenceId)
    ensures SourceShut(ReviewOf(t, id, action).0, evidenceId) <==> !(id == evidenceId && action == "approve")
  {
    hide SourceShut, Mapped;
    StoredSource(t, evidenceId);
    if EvidenceStatusFor(action).Some? && LookupEvidence(t.evidence, id).Some? {
      MappedSource(t, evidenceId, id, EvidenceStatusFor(action).value);
    }
  }

  lemma RedactSources(s: Setting, t: Tables, id: string, evidenceId: string)
    requires SourceShut(t, evidenceId)
    ensures SourceShut(Redact(s.sha, t, id).0, evidenceId)
  {
    hide SourceShut, Mapped;
    MappedSource(t, evidenceId, id, Redacted);
    if LookupEvidence(t.evidence, id).Some? {
      SameSources(
        t.(evidence := Mapped(t.evidence, EvidenceReviewed(id, Redacted))), Redact(s.sha, t, id).0, evidenceId);
    }
  }

  /** Rows mapped one by one: the claim stays shut exactly when its row does. */
  lemma MappedClaim(t: Tables, n: Tables, id: string, k: nat)
    requires Keyed(t.claims) && k < |t.claims| && t.claims[k].id == id && !Live(t.claims[k].status)
    requires |t.claims| <= |n.claims| && forall j :: 0 <= j < |n.claims| ==>
               if j < |t.claims| then n.claims[j].id == t.claims[j].id else n.claims[j].id != id
    ensures ClaimShut(n, id) <==> !Live(n.claims[k].status)
  {
    assert n.claims[k].id == id;
  }

  lemma CommitClaims(s: Setting, t: Tables, step: Step, id: string, k: nat)
    requires step.CommitClaim? && Proper(t, step) && Keyed(t.claims)
    requires k < |t.claims| && t.claims[k].id == id && !Live(t.claims[k].status)
    ensures ClaimShut(Apply(s, t, step), id)
  {
    hide Decide, Supported;
    var n := Apply(s, t, step);
    CommitEndsLive(s.governor, s.policy, t, step.candidate, step.project, step.id, step.now);
    WrittenAsProposed(s.governor, s.policy, t, step.candidate, step.project, step.id, step.now);
    CommitSameIds(s, t, step);
    MappedClaim(t, n, id, k);
  }

  lemma CommitSameIds(s: Setting, t: Tables, step: Step)
    requires step.CommitClaim?
    ensures |t.claims| <= |Apply(s, t, step).claims|
    ensures forall j :: 0 <= j < |t.claims| ==> Apply(s, t, step).claims[j].id == t.claims[j].id
  {
    hide Decide;
  }

  lemma ReviewClaims(t: Tables, claimId: string, action: string, id: string, k: nat)
    requires Keyed(t.claims) && k < |t.claims| && t.claims[k].id == id && !Live(t.claims[k].status)
    ensures ClaimShut(ActOn(t, claimId, action).0, id) <==> !(claimId == id && action in REVIVING)
  {
    hide ConfidenceAfter;
    assert HasClaim(t.claims, id);
    MappedClaim(t, ActOn(t, claimId, action).0, id, k);
  }

  /** Of the nine steps exactly the reviving ones bring a claim that is not live back. */
  lemma ClaimStepIff(s: Setting, t: Tables, step: Step, id: string)
    requires Keyed(t.claims) && Proper(t, step) && ClaimShut(t, id)
    ensures ClaimShut(Apply(s, t, step), id) <==> !Revives(s, t, step, id)
  {
    hide ClaimShut, Ingest, Commit, Scan, Decayed, AllOnRecord, LinkedClaims, Proper, ActOn;
    var k := RowOf(t, id);
    match step {
      case IngestEvidence(_, _, _) =>
        IngestClaims(s, t, step);
        MappedClaim(t, Apply(s, t, step), id, k);
      case CommitClaim(_, _, _, _) => CommitClaims(s, t, step, id, k);
      case ScanClaim(claimId) =>
        ScanOfDormant(s.detector, t, claimId, k);
        ScanSamePlaces(s.detector, t, claimId);
        MappedClaim(t, Scan(s.detector, t, claimId), id, k);
        LookupRow(t, id, k);
      case ReviewAct(claimId, action) => ReviewClaims(t, claimId, action, id, k);
      case ReviewSource(e, action) => MappedClaim(t, ReviewOf(t, e, action).0, id, k);
      case RedactSource(e) => RedactClaims(s, t, e, id, k);
      case DecayAll(age, project) => DecayClaims(s, t, age, project, id, k);
      case _ => MappedClaim(t, Apply(s, t, step), id, k);
    }
  }

  lemma RowOf(t: Tables, id: string) returns (k: nat)
    requires ClaimShut(t, id)
    ensures k < |t.claims| && t.claims[k].id == id && !Live(t.claims[k].status)
  {
    k :| 0 <= k < |t.claims| && t.claims[k].id == id;
  }

  lemma LookupRow(t: Tables, id: string, k: nat)
    requires Keyed(t.claims) && k < |t.claims| && t.claims[k].id == id
    ensures Lookup(t.claims, id) == Some(t.claims[k])
  {
    assert HasClaim(t.claims, id);
    SameRow(t.claims, k, Lookup(t.claims, id).value);
  }

  lemma RedactClaims(s: Setting, t: Tables, evidenceId: string, id: string, k: nat)
    requires Keyed(t.claims) && k < |t.claims| && t.claims[k].id == id && !Live(t.claims[k].status)
    ensures ClaimShut(Redact(s.sha, t, evidenceId).0, id)
  {
    hide LinkedClaims;
    MappedClaim(t, Redact(s.sha, t, evidenceId).0, id, k);
  }

  lemma DecayClaims(s: Setting, t: Tables, age: string -> int, project: string, id: string, k: nat)
    requires Keyed(t.claims) && k < |t.claims| && t.claims[k].id == id && !Live(t.claims[k].status)
    ensures ClaimShut(RunDecay(s.policy, age, t, project), id)
  {
    MappedClaim(t, RunDecay(s.policy, age, t, project), id, k);
  }

  lemma IngestClaims(s: Setting, t: Tables, step: Step)
    requires step.IngestEvidence?
    ensures Apply(s, t, step).claims == t.claims
  {
    hide Chunking.ChunksOf, FindEvidence, Mapped;
  }

  /** A step keeps it all hidden exactly when it does not reopen any of it. */
  lemma HiddenStepIff(s: Setting, t: Tables, step: Step, evidenceId: string, ids: seq<string>)
    requires Keyed(t.claims) && Proper(t, step) && Hidden(t, evidenceId, ids)
    ensures Hidden(Apply(s, t, step), evidenceId, ids) <==> !Reopens(s, t, step, evidenceId, ids)
  {
    hide SourceShut, ClaimShut, Apply, Revives, Proper;
    SourceStepIff(s, t, step, evidenceId);
    forall id | id in ids ensures ClaimShut(Apply(s, t, step), id) <==> !Revives(s, t, step, id) {
      ClaimStepIff(s, t, step, id);
    }
  }

  // ---------------------------------------------------------------- runs

  /** Hidden at the start and after every step. */
  ghost predicate AlwaysHidden(s: Setting, t: Tables, steps: seq<Step>, evidenceId: string, ids: seq<string>)
    decreases |steps|
  {
    Hidden(t, evidenceId, ids) && (steps == [] || AlwaysHidden(s, Apply(s, t, steps[0]), steps[1..], evidenceId, ids))
  }

  /** No step, taken where it is, brings any of it back. */
  ghost predicate NoneReopens(s: Setting, t: Tables, steps: seq<Step>, evidenceId: string, ids: seq<string>)
    decreases |steps|
  {
    steps == []
    || (!Reopens(s, t, steps[0], evidenceId, ids) && NoneReopens(s, Apply(s, t, steps[0]), steps[1..], evidenceId, ids))
  }

  lemma {:induction false} StaysHiddenIff(s: Setting, t: Tables, steps: seq<Step>, end: Tables, evidenceId: string,
      ids: seq<string>)
    requires Kept(s.sha, t) && Run(s, t, steps, end) && Hidden(t, evidenceId, ids)
    ensures AlwaysHidden(s, t, steps, evidenceId, ids) <==> NoneReopens(s, t, steps, evidenceId, ids)
    ensures NoneReopens(s, t, steps, evidenceId, ids) ==> Hidden(end, evidenceId, ids)
    decreases |steps|
  {
    hide Kept, Hidden, Apply, Reopens, Proper, Evolves;
    if steps != [] {
      var next := Apply(s, t, steps[0]);
      StepKeeps(s, t, steps[0]);
      KeptKeyed(s, t);
      HiddenStepIff(s, t, steps[0], evidenceId, ids);
      if Hidden(next, evidenceId, ids) {
        StaysHiddenIff(s, next, steps[1..], end, evidenceId, ids);
      } else {
        NotHidden(s, next, steps[1..], evidenceId, ids);
      }
    }
  }

  lemma NotHidden(s: Setting, t: Tables, steps: seq<Step>, evidenceId: string, ids: seq<string>)
    requires !Hidden(t, evidenceId, ids)
    ensures !AlwaysHidden(s, t, steps, evidenceId, ids)
  {
  }

  lemma KeptKeyed(s: Setting, t: Tables)
    requires Kept(s.sha, t)
    ensures Keyed(t.claims)
  {
  }

  lemma RedactShutsSource(s: Setting, t: Tables, evidenceId: string)
    requires Redact(s.sha, t, evidenceId).1.RedactedEvidence?
    ensures SourceShut(Redact(s.sha, t, evidenceId).0, evidenceId)
  {
    hide LinkedClaims;
    var n := Redact(s.sha, t, evidenceId).0;
    var e := LookupEvidence(t.evidence, evidenceId).value;
    var k :| 0 <= k < |t.evidence| && t.evidence[k] == e;
    assert n.evidence[k].id == evidenceId;
  }

  lemma RedactShutsClaim(s: Setting, t: Tables, evidenceId: string, id: string)
    requires LinksMatch(t) && Redact(s.sha, t, evidenceId).1.RedactedEvidence?
               && id in LinkedClaims(t.links, evidenceId)
    ensures ClaimShut(Redact(s.sha, t, evidenceId).0, id)
  {
    var n := Redact(s.sha, t, evidenceId).0;
    var j :| 0 <= j < |t.links| && t.links[j].support.evidenceId == evidenceId && t.links[j].support.claimId == id;
    hide LinkedClaims;
    assert HasClaim(t.claims, id);
    var i :| 0 <= i < |t.claims| && t.claims[i].id == id;
    assert n.claims[i].id == id;
  }

  lemma KeptLinks(s: Setting, t: Tables)
    requires Kept(s.sha, t)
    ensures LinksMatch(t)
  {
  }

  /** Redaction hides the source and every claim linked to it. */
  lemma RedactHides(s: Setting, t: Tables, evidenceId: string)
    requires Kept(s.sha, t) && Redact(s.sha, t, evidenceId).1.RedactedEvidence?
    ensures Hidden(Redact(s.sha, t, evidenceId).0, evidenceId, LinkedClaims(t.links, evidenceId))
  {
    hide Kept, Redact, LinkedClaims, SourceShut, ClaimShut, LinksMatch;
    KeptLinks(s, t);
    RedactShutsSource(s, t, evidenceId);
    forall id | id in LinkedClaims(t.links, evidenceId) ensures ClaimShut(Redact(s.sha, t, evidenceId).0, id) {
      RedactShutsClaim(s, t, evidenceId, id);
    }
  }

  /**
   * After a redaction the source and the claims linked to it stay hidden through a run
   * exactly when no step approves the source, accepts, verifies, restores or disputes one
   * of the claims, or scans one and finds a contradiction that is not on record.
   */
  lemma RedactedStaysHiddenIff(s: Setting, t: Tables, evidenceId: string, steps: seq<Step>, end: Tables)
    requires Kept(s.sha, t) && Redact(s.sha, t, evidenceId).1.RedactedEvidence?
    requires Run(s, Redact(s.sha, t, evidenceId).0, steps, end)
    ensures var n, ids := Redact(s.sha, t, evidenceId).0, LinkedClaims(t.links, evidenceId);
            && (AlwaysHidden(s, n, steps, evidenceId, ids) <==> NoneReopens(s, n, steps, evidenceId, ids))
            && (NoneReopens(s, n, steps, evidenceId, ids) ==> Hidden(end, evidenceId, ids))
  {
    hide Kept, Hidden, Redact, LinkedClaims, Run, Evolves;
    RedactHides(s, t, evidenceId);
    RedactKeeps(s.sha, t, evidenceId);
    StaysHiddenIff(s, Redact(s.sha, t, evidenceId).0, steps, end, evidenceId, LinkedClaims(t.links, evidenceId));
  }

  // ---------------------------------------------------------------- searches

  /** What is hidden is found by no search with the default statuses, in any mode. */
  lemma HiddenNotFound(sc: Scoring, t: Tables, evidenceId: string, ids: seq<string>, project: string, topK: int,
      resolved: Resolved, r: Results.Result)
    requires resolved.Resolved? && Hidden(t, evidenceId, ids)
    requires var statuses := Statuses(resolved, None);
             r in Found(sc, t, project, topK, statuses, ReviewStatuses(resolved, statuses))
    ensures r.evidenceId != Some(evidenceId)
    ensures r.kind.ClaimResult? ==> r.id !in ids
  {
    hide Found;
    var statuses := Statuses(resolved, None);
    FoundAdmitted(sc, t, project, topK, statuses, ReviewStatuses(resolved, statuses), r);
    if r.kind.ClaimResult? {
      var c :| c in t.claims && c.status in statuses && r.id == c.id;
      var k :| 0 <= k < |t.claims| && t.claims[k] == c;
      forall id | id in ids ensures r.id != id {
        assert ClaimShut(t, id);
      }
    }
  }

  /** So, as long as no step reopens it, redacted material is never found again. */
  lemma RedactedNeverFound(
    s: Setting, t: Tables, evidenceId: string, steps: seq<Step>, end: Tables,
    sc: Scoring, project: string, topK: int, resolved: Resolved, r: Results.Result)
    requires Kept(s.sha, t) && Redact(s.sha, t, evidenceId).1.RedactedEvidence?
    requires Run(s, Redact(s.sha, t, evidenceId).0, steps, end)
    requires NoneReopens(s, Redact(s.sha, t, evidenceId).0, steps, evidenceId, LinkedClaims(t.links, evidenceId))
    requires resolved.Resolved?
    requires var statuses := Statuses(resolved, None);
             r in Found(sc, end, project, topK, statuses, ReviewStatuses(resolved, statuses))
    ensures r.evidenceId != Some(evidenceId)
    ensures r.kind.ClaimResult? ==> r.id !in LinkedClaims(t.links, evidenceId)
  {
    hide Kept, Hidden, Redact, LinkedClaims, Run, Found, Statuses, ReviewStatuses, NoneReopens, AlwaysHidden;
    RedactedStaysHiddenIff(s, t, evidenceId, steps, end);
    HiddenNotFound(sc, end, evidenceId, LinkedClaims(t.links, evidenceId), project, topK, resolved, r);
  }

  /** Approving redacted evidence is not refused: a public search then admits its chunks again. */
  lemma ApproveReopens(s: Setting, t: Tables, evidenceId: string, c: TextChunk, e: Evidence)
    requires LookupEvidence(t.evidence, evidenceId) == Some(e) && c in t.chunks && c.evidenceId == evidenceId
    ensures var n := ReviewOf(Redact(s.sha, t, evidenceId).0, evidenceId, "approve").0;
            RedactChunk(evidenceId)(c) in n.chunks
              && Sourced(n, e.projectId, {EvidenceActive}, RedactChunk(evidenceId)(c))
  {
    hide LinkedClaims;
    var redacted := Redact(s.sha, t, evidenceId).0;
    var n := ReviewOf(redacted, evidenceId, "approve").0;
    MappedLookup(t.evidence, evidenceId, evidenceId, Redacted);
    MappedLookup(redacted.evidence, evidenceId, evidenceId, EvidenceActive);
    var k :| 0 <= k < |t.chunks| && t.chunks[k] == c;
    assert n.chunks[k] == RedactChunk(evidenceId)(c);
  }

  lemma {:induction false} MappedLookup(rows: seq<Evidence>, id: string, other: string, after: ReviewStatus)
    ensures LookupEvidence(Mapped(rows, EvidenceReviewed(other, after)), id)
            == match LookupEvidence(rows, id) case None => None case Some(e) => Some(EvidenceReviewed(other, after)(e))
  {
    if rows != [] {
      var f := EvidenceReviewed(other, after);
      assert Mapped(rows, f)[1..] == Mapped(rows[1..], f);
      MappedLookup(rows[1..], id, other, after);
    }
  }
}
