/** What a governed ingestion is meant to commit: the states it may leave, as functions of the one it began in. */
module IngestionStates {
  import opened Options
  import opened Tokens
  import opened Timestamps
  import Ledger
  import Candidates
  import opened Store
  import opened Connections
  import opened WriteGovernor
  import opened Contradictions
  import opened EvidenceIngest
  import opened GovernanceRuns

  /**
   * What a run is given: the governing functions, the ledger's hash, the ids and clock
   * readings drawn for ledger rows (by position), the JSON written into them, and what
   * extraction yields for a piece of evidence.
   */
  datatype Runtime = Runtime(
    setting: Setting,
    digest: Ledger.Digest,
    rowId: nat -> string,
    clock: nat -> DateTime,
    json: (string, nat) -> string,
    candidates: (Tables, string) -> seq<Candidates.Candidate>)

  datatype Request = Request(
    text: string, source: Source, ids: NewIds, runId: string, claimId: nat -> string,
    actor: Option<string>, extractClaims: bool, rebuildClusters: bool)

  datatype Outcome =
    | Finished(evidenceId: string, duplicate: bool, writes: seq<WriteResult>, contradictions: nat)
    | NotStarted
    | Raised

  // ---------------------------------------------------------------- events

  function EventOf(rt: Runtime, q: Request, at: nat, eventType: string, objectType: string, objectId: string,
      reason: string): Ledger.Event
  {
    Ledger.Event(
      q.source.project, eventType, q.actor, objectType, Some(objectId), "{}", rt.json(eventType, at), reason, "{}")
  }

  /** `MemoryLedger.append` on the pipeline's connection. */
  function Append(rt: Runtime, q: Request, rows: seq<Row>, eventType: string, objectType: string, objectId: string,
      reason: string): seq<Row>
  {
    var e := EventOf(rt, q, |rows|, eventType, objectType, objectId, reason);
    rows + [Ledger.Seal(rt.digest, rt.rowId(|rows|), e, Ledger.Newest(Ledger.Own(rows, e.projectId)), rt.clock(|rows|))]
  }

  // ---------------------------------------------------------------- the claims of one piece of evidence

  datatype Progress = Progress(tables: Tables, ledger: seq<Row>, writes: seq<WriteResult>, contradictions: nat)

  /** One candidate: committed, and when it ended at a claim, recorded in the ledger and scanned. */
  function WriteOne(rt: Runtime, q: Request, p: Progress, c: Candidates.Candidate, k: nat): Progress {
    var s := rt.setting;
    var (t, r) := Commit(s.governor, s.policy, p.tables, c, q.source.project, q.claimId(k), q.source.now);
    if !Truthy(r.matched) then Progress(t, p.ledger, p.writes + [r], p.contradictions)
    else
      var id := r.matched.value;
      Progress(Scan(s.detector, t, id),
               Append(rt, q, p.ledger, "claim_written", "claim", id, "candidate passed memory write governor"),
               p.writes + [r], p.contradictions + |Detected(s.detector, t, id)|)
  }

  /** The first `n` candidates, in order. */
  function WriteFirst(rt: Runtime, q: Request, p: Progress, cs: seq<Candidates.Candidate>, n: nat): Progress
    requires n <= |cs|
  {
    if n == 0 then p else WriteOne(rt, q, WriteFirst(rt, q, p, cs, n - 1), cs[n - 1], n - 1)
  }

  // ---------------------------------------------------------------- a run without faults

  /** Where the run stands once the evidence is in and its event recorded. */
  function AfterEvidence(rt: Runtime, q: Request, s: State): Progress
    requires Accepted(IngestOf(rt, q, s).1)
  {
    var (t, r) := IngestOf(rt, q, s);
    var started := Append(rt, q, s.ledger, "ingestion_started", "ingestion_run", q.runId, "");
    Progress(t, Append(rt, q, started, "evidence_ingested", "evidence", r.evidenceId, ""), [], 0)
  }

  function IngestOf(rt: Runtime, q: Request, s: State): (Tables, IngestResult) {
    Ingest(rt.setting.word, rt.setting.sha, s.tables, q.text, q.source, q.ids)
  }

  /** The candidates written: none for a duplicate or when claims are not asked for. */
  function ToWrite(rt: Runtime, q: Request, s: State): seq<Candidates.Candidate>
    requires Accepted(IngestOf(rt, q, s).1)
  {
    var (t, r) := IngestOf(rt, q, s);
    if q.extractClaims && r.Ingested? then rt.candidates(t, r.evidenceId) else []
  }

  function AfterClaims(rt: Runtime, q: Request, s: State): Progress
    requires Accepted(IngestOf(rt, q, s).1)
  {
    WriteFirst(rt, q, AfterEvidence(rt, q, s), ToWrite(rt, q, s), |ToWrite(rt, q, s)|)
  }

  /** The events that close the run. */
  function Closed(rt: Runtime, q: Request, rows: seq<Row>): seq<Row> {
    var clustered :=
      if q.rebuildClusters then Append(rt, q, rows, "clusters_rebuilt", "claim_clusters", q.source.project, "")
      else rows;
    Append(rt, q, clustered, "ingestion_finished", "ingestion_run", q.runId, "")
  }

  function JobFinished(id: string, evidenceId: string): Job -> Job {
    (j: Job) => if j.id == id then j.(status := PipelineFinished, evidenceId := Some(evidenceId)) else j
  }

  /** The run's own row, what the ingestor adds, and at the end the run's row updated. */
  function FinishedJobs(q: Request, jobs: seq<Job>, r: IngestResult): seq<Job>
    requires Accepted(r)
  {
    Mapped(IngestJobs(Started(q, jobs), q.source, q.ids, r), JobFinished(q.runId, r.evidenceId))
  }

  function Started(q: Request, jobs: seq<Job>): seq<Job> {
    jobs + [Job(q.runId, q.source.project, PipelineStarted, None)]
  }

  /** The state a run that meets no fault commits. */
  function Success(rt: Runtime, q: Request, s: State): State
    requires Accepted(IngestOf(rt, q, s).1)
  {
    var p := AfterClaims(rt, q, s);
    State(p.tables, Closed(rt, q, p.ledger), FinishedJobs(q, s.jobs, IngestOf(rt, q, s).1), s.projects)
  }

  function Returned(rt: Runtime, q: Request, s: State): Outcome
    requires Accepted(IngestOf(rt, q, s).1)
  {
    var p := AfterClaims(rt, q, s);
    var r := IngestOf(rt, q, s).1;
    Finished(r.evidenceId, r.Duplicate?, p.writes, p.contradictions)
  }

  predicate HasJob(jobs: seq<Job>, id: string) {
    exists k :: 0 <= k < |jobs| && jobs[k].id == id
  }

  function JobFailed(id: string): Job -> Job {
    (j: Job) => if j.id == id then j.(status := PipelineFailed) else j
  }

  /** The run's row marked failed, or inserted when the rollback took it away. */
  function FailedJobs(q: Request, jobs: seq<Job>): seq<Job> {
    if HasJob(jobs, q.runId) then Mapped(jobs, JobFailed(q.runId))
    else jobs + [Job(q.runId, q.source.project, PipelineFailed, None)]
  }

  function WithFailedJob(q: Request, s: State): State {
    s.(jobs := FailedJobs(q, s.jobs))
  }

  /** The state a failed run leaves: the failed job row and one event, nothing else. */
  function Failure(rt: Runtime, q: Request, s: State): State {
    WithFailedJob(q, s).(ledger := Append(rt, q, s.ledger, "ingestion_failed", "ingestion_run", q.runId, ""))
  }

  /** Nothing refuses the text, and no statement of the transaction raises. */
  ghost predicate Whole(rt: Runtime, q: Request, s: State, raises: nat -> bool, from: nat, end: nat) {
    Accepted(IngestOf(rt, q, s).1) && !Faulty(raises, from, end)
  }

  /**
   * What the exception handler leaves of `base`, its first statement being number `h`: three
   * statements for the job row, the block they stand in, and three for the event.
   */
  ghost function AfterHandler(rt: Runtime, q: Request, raises: nat -> bool, h: nat, leavingRaises: bool,
      base: State): State
  {
    if Faulty(raises, h, h + 3) then base
    else if leavingRaises || Faulty(raises, h + 3, h + 6) then WithFailedJob(q, base)
    else Failure(rt, q, base)
  }
}
