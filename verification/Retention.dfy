/** `RetentionManager`: redacting evidence and archiving a project's claims. */
module Retention {
  import opened Options
  import opened Store
  import opened Review

  const REDACTION := "[REDACTED_BY_RETENTION_POLICY]"

  type Sha = string -> string

  datatype RedactResult = RedactedEvidence(archived: nat) | NoSuchEvidence

  /** The distinct claims linked to the evidence, in link order. */
  function LinkedClaims(links: seq<Link>, evidenceId: string): (ids: seq<string>)
    ensures forall id :: id in ids <==>
              exists k :: 0 <= k < |links| && links[k].support.evidenceId == evidenceId
                && links[k].support.claimId == id
  {
    if links == [] then []
    else
      var init, last := links[..|links| - 1], links[|links| - 1];
      var ids := LinkedClaims(init, evidenceId);
      assert links == init + [last];
      if last.support.evidenceId == evidenceId && last.support.claimId !in ids then ids + [last.support.claimId]
        else ids
  }

  function RedactSnapshot(sha: Sha, evidenceId: string): Snapshot -> Snapshot {
    (s: Snapshot) => if s.evidenceId == evidenceId then s.(text := REDACTION, textSha256 := sha(REDACTION)) else s
  }

  function RedactChunk(evidenceId: string): TextChunk -> TextChunk {
    (c: TextChunk) => if c.evidenceId == evidenceId then c.(text := REDACTION, tokenCount := 1, salience := 0.0) else c
  }

  function RedactSpan(sha: Sha, evidenceId: string): TokenSpan -> TokenSpan {
    (s: TokenSpan) => if s.evidenceId == evidenceId then s.(text := REDACTION, textSha256 := sha(REDACTION)) else s
  }

  /** A dependent claim: archived and no longer salient. */
  function Withdrawn(id: string): Claim -> Claim {
    (c: Claim) => if c.id == id then c.(status := Archived, salience := 0.0) else c
  }

  function WithdrawnAll(ids: seq<string>): Claim -> Claim {
    (c: Claim) => if c.id in ids then c.(status := Archived, salience := 0.0) else c
  }

  /** `redact_evidence`. */
  function Redact(sha: Sha, t: Tables, evidenceId: string): (Tables, RedactResult) {
    if LookupEvidence(t.evidence, evidenceId).None? then (t, NoSuchEvidence)
    else
      var ids := LinkedClaims(t.links, evidenceId);
      (t.(claims := Mapped(t.claims, WithdrawnAll(ids)),
          snapshots := Mapped(t.snapshots, RedactSnapshot(sha, evidenceId)),
          chunks := Mapped(t.chunks, RedactChunk(evidenceId)),
          spans := Mapped(t.spans, RedactSpan(sha, evidenceId)),
          evidence := Mapped(t.evidence, EvidenceReviewed(evidenceId, Redacted))),
       RedactedEvidence(|ids|))
  }

  method RedactEvidence(sha: Sha, db: Database, evidenceId: string) returns (r: RedactResult)
    modifies db
    ensures (db.View(), r) == Redact(sha, old(db.View()), evidenceId)
  {
    if LookupEvidence(db.evidence, evidenceId).None? {
      return NoSuchEvidence;
    }
    var ids := LinkedClaims(db.links, evidenceId);
    db.snapshots := Mapped(db.snapshots, RedactSnapshot(sha, evidenceId));
    db.chunks := Mapped(db.chunks, RedactChunk(evidenceId));
    db.spans := Mapped(db.spans, RedactSpan(sha, evidenceId));
    ghost var was := db.View();
    assert Mapped(was.claims, WithdrawnAll([])) == was.claims;
    assert ids[..0] == [];
    for k := 0 to |ids|
      invariant db.View() == was.(claims := db.claims)
      invariant db.claims == Mapped(was.claims, WithdrawnAll(ids[..k]))
    {
      WithdrawNext(was.claims, ids, k);
      db.claims := Mapped(db.claims, Withdrawn(ids[k]));
    }
    assert ids[..|ids|] == ids;
    db.evidence := Mapped(db.evidence, EvidenceReviewed(evidenceId, Redacted));
    r := RedactedEvidence(|ids|);
  }

  lemma WithdrawNext(claims: seq<Claim>, ids: seq<string>, k: nat)
    requires k < |ids|
    ensures Mapped(Mapped(claims, WithdrawnAll(ids[..k])), Withdrawn(ids[k]))
              == Mapped(claims, WithdrawnAll(ids[..k + 1]))
  {
    assert ids[..k + 1] == ids[..k] + [ids[k]];
  }

  /** The claims an archive run takes: every one not yet archived or rejected. */
  predicate Archivable(c: Claim, project: string) {
    c.projectId == project && c.status != Archived && c.status != Rejected
  }

  function ArchiveStep(project: string): Claim -> Claim {
    (c: Claim) => if Archivable(c, project) then c.(status := Archived) else c
  }

  function ArchiveRows(t: Tables, project: string): seq<Claim> {
    Filter(t.claims, (c: Claim) => Archivable(c, project))
  }

  /** `archive_project_claims`. */
  function ArchiveProject(t: Tables, project: string): Tables {
    t.(claims := Mapped(t.claims, ArchiveStep(project)))
  }

  function ArchivedOne(id: string): Claim -> Claim {
    (c: Claim) => if c.id == id then c.(status := Archived) else c
  }

  ghost predicate ArchivedSoFar(was: seq<Claim>, done: seq<Claim>, now: seq<Claim>) {
    && |now| == |was|
    && forall k :: 0 <= k < |was| ==> now[k] == if was[k] in done then was[k].(status := Archived) else was[k]
  }

  /** No claim of the project is left live or stale, and claims of other projects are as they were. */
  ghost predicate ProjectArchived(t: Tables, n: Tables, project: string) {
    && n == t.(claims := n.claims) && |n.claims| == |t.claims|
    && forall k :: 0 <= k < |t.claims| ==>
         var a, b := t.claims[k], n.claims[k];
         && b == a.(status := b.status) && (a.projectId != project ==> b == a)
         && (a.projectId == project ==> b.status == if a.status == Rejected then Rejected else Archived)
  }

  lemma ArchiveEffect(t: Tables, project: string)
    ensures ProjectArchived(t, ArchiveProject(t, project), project)
  {
  }

  /** `archive_project_claims`. */
  method ArchiveProjectClaims(db: Database, project: string) returns (archived: nat)
    requires Keyed(db.claims)
    modifies db
    ensures db.View() == ArchiveProject(old(db.View()), project)
    ensures archived == |ArchiveRows(old(db.View()), project)|
    ensures ProjectArchived(old(db.View()), db.View(), project)
  {
    ArchiveEffect(db.View(), project);
    hide ProjectArchived;
    ghost var was := db.View();
    var rows := ArchiveRows(db.View(), project);
    for k := 0 to |rows|
      invariant db.View() == was.(claims := db.claims)
      invariant ArchivedSoFar(was.claims, rows[..k], db.claims)
    {
      ArchiveNext(was.claims, rows, k, db.claims);
      db.claims := Mapped(db.claims, ArchivedOne(rows[k].id));
    }
    assert rows[..|rows|] == rows;
    archived := |rows|;
  }

  lemma ArchiveNext(was: seq<Claim>, rows: seq<Claim>, k: nat, now: seq<Claim>)
    requires Keyed(was) && k < |rows| && (forall c :: c in rows ==> c in was)
    requires ArchivedSoFar(was, rows[..k], now)
    ensures ArchivedSoFar(was, rows[..k + 1], Mapped(now, ArchivedOne(rows[k].id)))
  {
    assert rows[..k + 1] == rows[..k] + [rows[k]];
    assert rows[k] in was;
  }

  /**
   * After redaction no snapshot, chunk or span of the evidence holds text, every linked
   * claim is archived without salience, and the rest of the store is as it was.
   */
  lemma RedactEffect(sha: Sha, t: Tables, evidenceId: string)
    requires Redact(sha, t, evidenceId).1.RedactedEvidence?
    ensures var n := Redact(sha, t, evidenceId).0;
            && (forall s :: s in n.snapshots && s.evidenceId == evidenceId ==>
                 s.text == REDACTION && s.textSha256 == sha(REDACTION))
            && (forall c :: c in n.chunks && c.evidenceId == evidenceId ==> c.text == REDACTION)
            && (forall s :: s in n.spans && s.evidenceId == evidenceId ==>
                 s.text == REDACTION && s.textSha256 == sha(REDACTION))
            && (forall e :: e in n.evidence && e.id == evidenceId ==> e.reviewStatus == Redacted)
    ensures var n := Redact(sha, t, evidenceId).0;
            && n.links == t.links && n.supports == t.supports && n.contradictions == t.contradictions
            && |n.claims| == |t.claims|
            && forall k :: 0 <= k < |t.claims| ==>
                 n.claims[k] == if t.claims[k].id in LinkedClaims(t.links, evidenceId)
                                then t.claims[k].(status := Archived, salience := 0.0) else t.claims[k]
  {
    hide LinkedClaims;
    var n := Redact(sha, t, evidenceId).0;
    forall s | s in n.snapshots && s.evidenceId == evidenceId
      ensures s.text == REDACTION && s.textSha256 == sha(REDACTION)
    {
      var k :| 0 <= k < |n.snapshots| && n.snapshots[k] == s;
      assert s == RedactSnapshot(sha, evidenceId)(t.snapshots[k]);
    }
    forall c | c in n.chunks && c.evidenceId == evidenceId ensures c.text == REDACTION {
      var k :| 0 <= k < |n.chunks| && n.chunks[k] == c;
      assert c == RedactChunk(evidenceId)(t.chunks[k]);
    }
    forall s | s in n.spans && s.evidenceId == evidenceId
      ensures s.text == REDACTION && s.textSha256 == sha(REDACTION)
    {
      var k :| 0 <= k < |n.spans| && n.spans[k] == s;
      assert s == RedactSpan(sha, evidenceId)(t.spans[k]);
    }
    forall e | e in n.evidence && e.id == evidenceId ensures e.reviewStatus == Redacted {
      var k :| 0 <= k < |n.evidence| && n.evidence[k] == e;
      assert e == EvidenceReviewed(evidenceId, Redacted)(t.evidence[k]);
    }
  }
}
