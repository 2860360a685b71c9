/** The claim and evidence tables, as a value and as a mutable database. */
module Store {
  import opened Options
  import opened Candidates

  datatype Status = Active | Stale | Disputed | Superseded | Rejected | Archived | PendingReview

  datatype ReviewStatus = EvidencePending | EvidenceActive | EvidenceRejected | Redacted

  datatype Claim = Claim(
    id: string, projectId: string, subject: string, predicate_: string, object_: string, claimText: string,
    memoryType: MemoryType, memoryLevel: MemoryLevel, status: Status,
    confidence: real, salience: real, sourceQuality: real, createdAt: string)

  datatype SupportType = Supports | Corroborates

  /** The columns `claim_evidence_links` and `claim_support_spans` have in common. */
  datatype Support = Support(
    claimId: string, evidenceId: string, chunkId: Option<string>, spanId: Option<string>,
    supportType: SupportType, confidence: real)

  datatype Link = Link(support: Support, relation: string, kind: string)

  datatype SupportSpan = SupportSpan(
    support: Support, charStart: Option<int>, charEnd: Option<int>, tokenStart: Option<int>, tokenEnd: Option<int>,
    quote: string)

  datatype ContradictionRow = ContradictionRow(a: string, b: string, resolved: bool)

  datatype Evidence = Evidence(
    id: string, projectId: string, sourceType: string, sha256: string, capturedAt: string, reviewStatus: ReviewStatus)

  datatype Snapshot = Snapshot(id: string, evidenceId: string, text: string, textSha256: string)

  datatype TextChunk = TextChunk(
    id: string, evidenceId: string, snapshotId: string, index: nat, charStart: nat, charEnd: nat,
    tokenStart: nat, tokenEnd: int, text: string, tokenCount: int, salience: real, sourceQuality: real)

  datatype TokenSpan = TokenSpan(
    id: string, evidenceId: string, chunkId: string, charStart: nat, charEnd: nat,
    tokenStart: nat, tokenEnd: int, textSha256: string, text: string)

  datatype Owner = OfClaim(id: string) | OfChunk(id: string)

  datatype Tables = Tables(
    claims: seq<Claim>, embeddings: seq<Owner>, links: seq<Link>, supports: seq<SupportSpan>,
    contradictions: seq<ContradictionRow>,
    evidence: seq<Evidence>, snapshots: seq<Snapshot>, chunks: seq<TextChunk>, spans: seq<TokenSpan>)

  /** The statuses duplicate search, contradiction scan and the support check look at. */
  predicate Live(s: Status) {
    s == Active || s == PendingReview || s == Disputed
  }

  /** A column that is neither null nor empty, which is how the code tests for a key. */
  predicate Truthy(key: Option<string>) {
    key.Some? && key.value != ""
  }

  // ---------------------------------------------------------------- queries and updates

  ghost predicate HasClaim(claims: seq<Claim>, id: string) {
    exists k :: 0 <= k < |claims| && claims[k].id == id
  }

  /** The row with this primary key. */
  function Lookup(claims: seq<Claim>, id: string): (r: Option<Claim>)
    ensures r.Some? ==> r.value in claims && r.value.id == id
    ensures r.None? ==> !HasClaim(claims, id)
  {
    if claims == [] then None
    else if claims[0].id == id then Some(claims[0])
    else
      var r := Lookup(claims[1..], id);
      assert forall k :: 1 <= k < |claims| ==> claims[k] == claims[1..][k - 1];
      r
  }

  /** Every row replaced by `f` of it. */
  function Mapped<T, U>(rows: seq<T>, f: T -> U): (r: seq<U>)
    ensures |r| == |rows| && forall k :: 0 <= k < |rows| ==> r[k] == f(rows[k])
  {
    seq(|rows|, k requires 0 <= k < |rows| => f(rows[k]))
  }

  function Filter<T(!new)>(rows: seq<T>, keep: T -> bool): (r: seq<T>)
    ensures forall x :: x in r <==> x in rows && keep(x)
    ensures |r| <= |rows|
  {
    if rows == [] then [] else (if keep(rows[0]) then [rows[0]] else []) + Filter(rows[1..], keep)
  }

  function First<T>(rows: seq<T>, n: nat): seq<T> {
    if |rows| <= n then rows else rows[..n]
  }

  /** The primary key of `memory_claims`. */
  ghost predicate Keyed(claims: seq<Claim>) {
    forall j, k :: 0 <= j < k < |claims| ==> claims[j].id != claims[k].id
  }

  /** The claims that are not live are left as they were. */
  ghost predicate LeavesRest(before: seq<Claim>, after: seq<Claim>) {
    |before| <= |after| && forall k :: 0 <= k < |before| && !Live(before[k].status) ==> after[k] == before[k]
  }

  /** How many rows satisfy the condition. */
  function Tally<T(!new)>(rows: seq<T>, p: T -> bool): nat {
    if rows == [] then 0 else Tally(rows[..|rows| - 1], p) + if p(rows[|rows| - 1]) then 1 else 0
  }

  // ---------------------------------------------------------------- the database

  /** The tables, for operations that open a connection for themselves and commit it when they are done. */
  class Database {
    var claims: seq<Claim>
    var embeddings: seq<Owner>
    var links: seq<Link>
    var supports: seq<SupportSpan>
    var contradictions: seq<ContradictionRow>
    var evidence: seq<Evidence>
    var snapshots: seq<Snapshot>
    var chunks: seq<TextChunk>
    var spans: seq<TokenSpan>

    constructor ()
      ensures View() == Tables([], [], [], [], [], [], [], [], [])
    {
      claims, embeddings, links, supports, contradictions := [], [], [], [], [];
      evidence, snapshots, chunks, spans := [], [], [], [];
    }

    function View(): Tables
      reads this
    {
      Tables(claims, embeddings, links, supports, contradictions, evidence, snapshots, chunks, spans)
    }
  }
}
