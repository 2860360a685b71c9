/** `IntegrityChecker.run`, and the state in which it has little to report. */
module Integrity {
  import opened Options
  import opened Spans
  import opened Store
  import opened Review
  import opened Retention
  import opened Contradictions

  datatype Issue =
    | SnapshotHashMismatch(evidenceId: string, snapshotId: string)
    | SpanHashMismatch(spanId: string, chunkId: string)
    | SpanChunkTextMismatch(spanId: string, chunkId: string)
    | UnsupportedClaim(claimId: string)
    | MissingClaimEmbedding(claimId: string)
    | DuplicateEvidenceSha(sha256: string, count: nat)
    | UnresolvedContradiction(claimId: string, count: nat)

  /** The issues of each row, one after another. */
  function Collect<T(!new)>(rows: seq<T>, f: T -> seq<Issue>): (r: seq<Issue>) {
    if rows == [] then [] else Collect(rows[..|rows| - 1], f) + f(rows[|rows| - 1])
  }

  /** `evidence_sources` joined on the id, when the source is of the project. */
  predicate OfProject(t: Tables, project: string, evidenceId: string) {
    var e := LookupEvidence(t.evidence, evidenceId);
    e.Some? && e.value.projectId == project
  }

  function LookupChunk(rows: seq<TextChunk>, id: string): (r: Option<TextChunk>)
    ensures r.Some? ==> r.value in rows && r.value.id == id
    ensures r.None? ==> forall c :: c in rows ==> c.id != id
  {
    if rows == [] then None else if rows[0].id == id then Some(rows[0]) else LookupChunk(rows[1..], id)
  }

  /** Python's `a in b` on strings. */
  predicate Within(a: string, b: string) {
    Find(b, a, 0).Some?
  }

  function SnapshotIssues(sha: Sha, t: Tables, project: string): Snapshot -> seq<Issue> {
    (s: Snapshot) =>
      if OfProject(t, project, s.evidenceId) && sha(s.text) != s.textSha256 then
        [SnapshotHashMismatch(s.evidenceId, s.id)]
      else []
  }

  function SpanIssues(sha: Sha, t: Tables, project: string): TokenSpan -> seq<Issue> {
    (s: TokenSpan) =>
      match LookupChunk(t.chunks, s.chunkId)
      case None => []
      case Some(chunk) =>
        if !OfProject(t, project, s.evidenceId) then []
        else (if s.textSha256 != sha(s.text) then [SpanHashMismatch(s.id, s.chunkId)] else [])
             + (if !Within(s.text, chunk.text) && !Within(chunk.text, s.text)
                then [SpanChunkTextMismatch(s.id, s.chunkId)] else [])
  }

  predicate HasLink(links: seq<Link>, claimId: string) {
    exists k :: 0 <= k < |links| && links[k].support.claimId == claimId
  }

  predicate IsUnsupported(t: Tables, project: string, c: Claim) {
    c.projectId == project && Live(c.status) && !HasLink(t.links, c.id)
  }

  function UnsupportedIssues(t: Tables, project: string): Claim -> seq<Issue> {
    (c: Claim) => if IsUnsupported(t, project, c) then [UnsupportedClaim(c.id)] else []
  }

  function EmbeddingIssues(t: Tables, project: string): Claim -> seq<Issue> {
    (c: Claim) => if c.projectId == project && OfClaim(c.id) !in t.embeddings then [MissingClaimEmbedding(c.id)] else []
  }

  function SameSha(t: Tables, project: string, sha256: string): seq<Evidence> {
    Filter(t.evidence, (e: Evidence) => e.projectId == project && e.sha256 == sha256)
  }

  /** One issue for each group, at its first row. */
  function DuplicateIssues(t: Tables, project: string): Evidence -> seq<Issue> {
    (e: Evidence) =>
      var group := SameSha(t, project, e.sha256);
      if |group| > 1 && group[0] == e then [DuplicateEvidenceSha(e.sha256, |group|)] else []
  }

  function OpenFor(claimId: string): ContradictionRow -> bool {
    (x: ContradictionRow) => !x.resolved && (x.a == claimId || x.b == claimId)
  }

  function UnresolvedIssues(t: Tables, project: string): Claim -> seq<Issue> {
    (c: Claim) =>
      var n := Tally(t.contradictions, OpenFor(c.id));
      if c.projectId == project && n > 0 then [UnresolvedContradiction(c.id, n)] else []
  }

  /** The issues of a run, in the order they are found. */
  function Report(sha: Sha, t: Tables, project: string): seq<Issue> {
    Collect(t.snapshots, SnapshotIssues(sha, t, project))
    + Collect(t.spans, SpanIssues(sha, t, project))
    + Collect(t.claims, UnsupportedIssues(t, project))
    + Collect(t.claims, EmbeddingIssues(t, project))
    + Collect(t.evidence, DuplicateIssues(t, project))
    + Collect(t.claims, UnresolvedIssues(t, project))
  }

  /** One of the checker's loops: the issues of these rows appended. */
  method Check<T(!new)>(issues: seq<Issue>, rows: seq<T>, f: T -> seq<Issue>) returns (out: seq<Issue>)
    ensures out == issues + Collect(rows, f)
  {
    out := issues;
    assert rows[..0] == [];
    for k := 0 to |rows|
      invariant out == issues + Collect(rows[..k], f)
    {
      assert rows[..k + 1][..k] == rows[..k];
      out := out + f(rows[k]);
    }
    assert rows[..|rows|] == rows;
  }

  lemma NoneBefore(a: seq<Issue>)
    ensures [] + a == a
  {
  }

  /** `run`: no issue means ok. */
  method RunIntegrity(sha: Sha, db: Database, project: string) returns (ok: bool, issues: seq<Issue>)
    ensures issues == Report(sha, db.View(), project) && (ok <==> issues == [])
  {
    hide Collect, SnapshotIssues, SpanIssues, UnsupportedIssues, EmbeddingIssues, DuplicateIssues, UnresolvedIssues;
    var t := db.View();
    issues := [];
    NoneBefore(Collect(db.snapshots, SnapshotIssues(sha, t, project)));
    issues := Check(issues, db.snapshots, SnapshotIssues(sha, t, project));
    issues := Check(issues, db.spans, SpanIssues(sha, t, project));
    issues := Check(issues, db.claims, UnsupportedIssues(t, project));
    issues := Check(issues, db.claims, EmbeddingIssues(t, project));
    issues := Check(issues, db.evidence, DuplicateIssues(t, project));
    issues := Check(issues, db.claims, UnresolvedIssues(t, project));
    ok := issues == [];
  }

  lemma {:induction false} CollectNothing<T(!new)>(rows: seq<T>, f: T -> seq<Issue>)
    requires forall x :: x in rows ==> f(x) == []
    ensures Collect(rows, f) == []
  {
    if rows != [] {
      CollectNothing(rows[..|rows| - 1], f);
    }
  }

  lemma {:induction false} CollectMember<T(!new)>(rows: seq<T>, f: T -> seq<Issue>, issue: Issue)
    ensures issue in Collect(rows, f) <==> exists k :: 0 <= k < |rows| && issue in f(rows[k])
  {
    if rows != [] {
      var init := rows[..|rows| - 1];
      CollectMember(init, f, issue);
      if issue in Collect(init, f) {
        var k :| 0 <= k < |init| && issue in f(init[k]);
        assert issue in f(rows[k]);
      }
      if k :| 0 <= k < |rows| && issue in f(rows[k]) {
        assert k < |init| ==> issue in f(init[k]);
      }
    }
  }

  // ---------------------------------------------------------------- what every operation keeps

  ghost predicate RangesKept(claims: seq<Claim>) {
    forall k :: 0 <= k < |claims| ==> 0.0 <= claims[k].confidence <= 1.0 && 0.0 <= claims[k].salience <= 1.0
  }

  ghost predicate Embedded(t: Tables) {
    forall k :: 0 <= k < |t.claims| ==> OfClaim(t.claims[k].id) in t.embeddings
  }

  /** Links and support spans stand one against the other, for existing claims. */
  ghost predicate LinksMatch(t: Tables) {
    && |t.links| == |t.supports|
    && (forall k :: 0 <= k < |t.links| ==> t.links[k].support == t.supports[k].support)
    && (forall k :: 0 <= k < |t.links| ==> HasClaim(t.claims, t.links[k].support.claimId))
  }

  ghost predicate EvidenceKept(rows: seq<Evidence>) {
    && (forall j, k :: 0 <= j < k < |rows| ==> rows[j].id != rows[k].id)
    && (forall j, k :: 0 <= j < k < |rows| ==>
         !(rows[j].projectId == rows[k].projectId && rows[j].sha256 == rows[k].sha256))
  }

  ghost predicate SnapshotsKept(sha: Sha, rows: seq<Snapshot>) {
    forall k :: 0 <= k < |rows| ==> rows[k].textSha256 == sha(rows[k].text)
  }

  ghost predicate ChunksKeyed(rows: seq<TextChunk>) {
    forall j, k :: 0 <= j < k < |rows| ==> rows[j].id != rows[k].id
  }

  /** The chunk of a span holds the span's text and comes from the same evidence. */
  ghost predicate Matches(s: TokenSpan, c: TextChunk) {
    c.id == s.chunkId && c.text == s.text && c.evidenceId == s.evidenceId
  }

  ghost predicate Homed(s: TokenSpan, chunks: seq<TextChunk>) {
    exists j :: 0 <= j < |chunks| && Matches(s, chunks[j])
  }

  ghost predicate SpansKept(sha: Sha, t: Tables) {
    && ChunksKeyed(t.chunks)
    && (forall k :: 0 <= k < |t.spans| ==> t.spans[k].textSha256 == sha(t.spans[k].text))
    && (forall k :: 0 <= k < |t.spans| ==> Homed(t.spans[k], t.chunks))
  }

  ghost predicate Kept(sha: Sha, t: Tables) {
    && Keyed(t.claims) && RangesKept(t.claims) && Embedded(t) && LinksMatch(t) && OncePerPair(t.contradictions)
    && EvidenceKept(t.evidence) && SnapshotsKept(sha, t.snapshots) && SpansKept(sha, t)
  }

  lemma WithinItself(a: string)
    ensures Within(a, a)
  {
    assert Occurs(a, a, 0);
  }

  lemma SpanHasNoIssue(sha: Sha, t: Tables, project: string, s: TokenSpan)
    requires SpansKept(sha, t) && s in t.spans
    ensures SpanIssues(sha, t, project)(s) == []
  {
    hide Within;
    var k :| 0 <= k < |t.spans| && t.spans[k] == s;
    var j :| 0 <= j < |t.chunks| && Matches(t.spans[k], t.chunks[j]);
    var found := LookupChunk(t.chunks, s.chunkId).value;
    var i :| 0 <= i < |t.chunks| && t.chunks[i] == found;
    assert i == j;
    WithinItself(s.text);
  }

  lemma NoDuplicates(t: Tables, project: string, e: Evidence)
    requires EvidenceKept(t.evidence)
    ensures DuplicateIssues(t, project)(e) == []
  {
    AtMostOneMatch(t.evidence, project, e.sha256);
  }

  lemma {:induction false} AtMostOneMatch(rows: seq<Evidence>, project: string, sha256: string)
    requires EvidenceKept(rows)
    ensures |Filter(rows, (e: Evidence) => e.projectId == project && e.sha256 == sha256)| <= 1
  {
    if rows != [] {
      var keep := (e: Evidence) => e.projectId == project && e.sha256 == sha256;
      assert EvidenceKept(rows[1..]);
      AtMostOneMatch(rows[1..], project, sha256);
      if keep(rows[0]) {
        forall e | e in rows[1..] ensures !keep(e) {
          var k :| 0 <= k < |rows[1..]| && rows[1..][k] == e;
          assert rows[k + 1] == e;
        }
        FilterNone(rows[1..], keep);
      }
    }
  }

  lemma {:induction false} FilterNone<T(!new)>(rows: seq<T>, keep: T -> bool)
    requires forall x :: x in rows ==> !keep(x)
    ensures Filter(rows, keep) == []
  {
    if rows != [] {
      FilterNone(rows[1..], keep);
    }
  }

  lemma OnlyTwo(a: seq<Issue>, b: seq<Issue>, c: seq<Issue>, d: seq<Issue>, e: seq<Issue>, f: seq<Issue>)
    requires a == [] && b == [] && d == [] && e == []
    ensures a + b + c + d + e + f == c + f
  {
    assert [] + [] + c == c && c + [] == c;
  }

  /** In a kept state the checker reports nothing but unsupported claims and unresolved contradictions. */
  lemma OnlyOpenQuestions(sha: Sha, t: Tables, project: string)
    requires Kept(sha, t)
    ensures Report(sha, t, project)
            == Collect(t.claims, UnsupportedIssues(t, project)) + Collect(t.claims, UnresolvedIssues(t, project))
  {
    hide Kept, SpanIssues, DuplicateIssues, SnapshotIssues, EmbeddingIssues, UnsupportedIssues, UnresolvedIssues,
      Collect;
    assert EvidenceKept(t.evidence) && SpansKept(sha, t) by {
      KeptParts(sha, t);
    }
    hide EvidenceKept, SpansKept;
    forall s | s in t.snapshots ensures SnapshotIssues(sha, t, project)(s) == [] {
      SnapshotHasNoIssue(sha, t, project, s);
    }
    CollectNothing(t.snapshots, SnapshotIssues(sha, t, project));
    forall s | s in t.spans ensures SpanIssues(sha, t, project)(s) == [] {
      SpanHasNoIssue(sha, t, project, s);
    }
    CollectNothing(t.spans, SpanIssues(sha, t, project));
    forall c | c in t.claims ensures EmbeddingIssues(t, project)(c) == [] {
      ClaimIsEmbedded(sha, t, project, c);
    }
    CollectNothing(t.claims, EmbeddingIssues(t, project));
    forall e | e in t.evidence ensures DuplicateIssues(t, project)(e) == [] {
      NoDuplicates(t, project, e);
    }
    CollectNothing(t.evidence, DuplicateIssues(t, project));
    OnlyTwo(Collect(t.snapshots, SnapshotIssues(sha, t, project)), Collect(t.spans, SpanIssues(sha, t, project)),
            Collect(t.claims, UnsupportedIssues(t, project)), Collect(t.claims, EmbeddingIssues(t, project)),
            Collect(t.evidence, DuplicateIssues(t, project)), Collect(t.claims, UnresolvedIssues(t, project)));
  }

  lemma KeptParts(sha: Sha, t: Tables)
    requires Kept(sha, t)
    ensures EvidenceKept(t.evidence) && SpansKept(sha, t)
  {
  }

  lemma SnapshotHasNoIssue(sha: Sha, t: Tables, project: string, s: Snapshot)
    requires Kept(sha, t) && s in t.snapshots
    ensures SnapshotIssues(sha, t, project)(s) == []
  {
  }

  lemma ClaimIsEmbedded(sha: Sha, t: Tables, project: string, c: Claim)
    requires Kept(sha, t) && c in t.claims
    ensures EmbeddingIssues(t, project)(c) == []
  {
  }

  /** A claim is reported unsupported exactly when it is live, of the project, and has no link. */
  lemma UnsupportedReported(t: Tables, project: string, id: string)
    ensures UnsupportedClaim(id) in Collect(t.claims, UnsupportedIssues(t, project))
            <==> exists k :: 0 <= k < |t.claims| && t.claims[k].id == id && IsUnsupported(t, project, t.claims[k])
  {
    CollectMember(t.claims, UnsupportedIssues(t, project), UnsupportedClaim(id));
    if k :| 0 <= k < |t.claims| && t.claims[k].id == id && IsUnsupported(t, project, t.claims[k]) {
      assert UnsupportedClaim(id) in UnsupportedIssues(t, project)(t.claims[k]);
    }
  }
}
