/** What a governed ingestion leaves behind: its events, a sound ledger, kept tables and true quotes. */
module PipelineProperties {
  import opened Options
  import opened Text
  import opened Tokens
  import opened Chunking
  import opened Timestamps
  import opened LedgerFraming
  import Ledger
  import LedgerAppend
  import LedgerProtocol
  import Candidates
  import opened Store
  import opened Connections
  import opened WriteGovernor
  import opened Contradictions
  import opened EvidenceIngest
  import opened Integrity
  import opened GovernanceRuns
  import opened IngestionStates
  import EvidenceExtraction

  // ---------------------------------------------------------------- the events of a run

  /** Type and object of each row. */
  function Subjects(rows: seq<Row>): seq<(string, Option<string>)> {
    Mapped(rows, (r: Row) => (r.event.eventType, r.event.objectId))
  }

  /** One `claim_written` for every write that ended at a claim. */
  function ClaimSubjects(writes: seq<WriteResult>): seq<(string, Option<string>)> {
    if writes == [] then []
    else
      var last := writes[|writes| - 1];
      ClaimSubjects(writes[..|writes| - 1]) + (if Truthy(last.matched) then [("claim_written", last.matched)] else [])
  }

  lemma AppendSubject(rt: Runtime, q: Request, rows: seq<Row>, eventType: string, objectType: string, objectId: string,
      reason: string)
    ensures Subjects(Append(rt, q, rows, eventType, objectType, objectId, reason))
              == Subjects(rows) + [(eventType, Some(objectId))]
    ensures rows <= Append(rt, q, rows, eventType, objectType, objectId, reason)
  {
  }

  lemma {:induction false} WriteSubjects(rt: Runtime, q: Request, p: Progress, cs: seq<Candidates.Candidate>, n: nat)
    requires n <= |cs| && p.writes == []
    ensures var e := WriteFirst(rt, q, p, cs, n);
            && |e.writes| == n
            && p.ledger <= e.ledger
            && Subjects(e.ledger) == Subjects(p.ledger) + ClaimSubjects(e.writes)
  {
    hide Append, Commit, Scan, Detected, Subjects;
    if n == 0 {
      assert Subjects(p.ledger) + [] == Subjects(p.ledger);
    } else {
      WriteSubjects(rt, q, p, cs, n - 1);
      var before := WriteFirst(rt, q, p, cs, n - 1);
      OneSubject(rt, q, before, cs[n - 1], n - 1);
      Assoc(Subjects(p.ledger), ClaimSubjects(before.writes),
            ClaimSubjects([WriteOne(rt, q, before, cs[n - 1], n - 1).writes[n - 1]]));
    }
  }

  lemma {:induction false} OneSubject(rt: Runtime, q: Request, p: Progress, c: Candidates.Candidate, k: nat)
    ensures var e := WriteOne(rt, q, p, c, k);
            && |e.writes| == |p.writes| + 1 && p.ledger <= e.ledger
            && Subjects(e.ledger) == Subjects(p.ledger) + ClaimSubjects([e.writes[|p.writes|]])
            && ClaimSubjects(e.writes) == ClaimSubjects(p.writes) + ClaimSubjects([e.writes[|p.writes|]])
  {
    hide Append, Commit, Scan, Detected, Subjects;
    var (_, r) := Commit(rt.setting.governor, rt.setting.policy, p.tables, c, q.source.project, q.claimId(k),
      q.source.now);
    assert (p.writes + [r])[..|p.writes|] == p.writes;
    assert [r][..0] == [];
    if Truthy(r.matched) {
      AppendSubject(
        rt, q, p.ledger, "claim_written", "claim", r.matched.value, "candidate passed memory write governor");
    } else {
      assert Subjects(p.ledger) + [] == Subjects(p.ledger);
    }
  }

  /**
   * A finished run adds to the ledger exactly: started, evidence ingested, one
   * `claim_written` for each write that ended at a claim, clusters rebuilt when asked
   * for, and finished, in that order.
   */
  lemma EventsInOrder(rt: Runtime, q: Request, s: State)
    requires Accepted(IngestOf(rt, q, s).1)
    ensures s.ledger <= Success(rt, q, s).ledger
    ensures Subjects(Success(rt, q, s).ledger) ==
            Subjects(s.ledger)
            + [("ingestion_started", Some(q.runId)), ("evidence_ingested", Some(Returned(rt, q, s).evidenceId))]
            + ClaimSubjects(Returned(rt, q, s).writes)
            + (if q.rebuildClusters then [("clusters_rebuilt", Some(q.source.project))] else [])
            + [("ingestion_finished", Some(q.runId))]
  {
    hide Append, Ingest, WriteFirst, Subjects, ToWrite;
    var r := IngestOf(rt, q, s).1;
    AppendSubject(rt, q, s.ledger, "ingestion_started", "ingestion_run", q.runId, "");
    var started := Append(rt, q, s.ledger, "ingestion_started", "ingestion_run", q.runId, "");
    AppendSubject(rt, q, started, "evidence_ingested", "evidence", r.evidenceId, "");
    WriteSubjects(rt, q, AfterEvidence(rt, q, s), ToWrite(rt, q, s), |ToWrite(rt, q, s)|);
    var p := AfterClaims(rt, q, s);
    ClosedSubjects(rt, q, p.ledger);
    assert Subjects(s.ledger) + [("ingestion_started", Some(q.runId))] + [("evidence_ingested", Some(r.evidenceId))]
        == Subjects(s.ledger) + [("ingestion_started", Some(q.runId)), ("evidence_ingested", Some(r.evidenceId))];
  }

  lemma ClosedSubjects(rt: Runtime, q: Request, rows: seq<Row>)
    ensures rows <= Closed(rt, q, rows)
    ensures Subjects(Closed(rt, q, rows)) ==
            Subjects(rows) + (if q.rebuildClusters then [("clusters_rebuilt", Some(q.source.project))] else [])
            + [("ingestion_finished", Some(q.runId))]
  {
    hide Append, Subjects;
    if q.rebuildClusters {
      AppendSubject(rt, q, rows, "clusters_rebuilt", "claim_clusters", q.source.project, "");
      AppendSubject(rt, q, Append(rt, q, rows, "clusters_rebuilt", "claim_clusters", q.source.project, ""),
        "ingestion_finished", "ingestion_run", q.runId, "");
    } else {
      AppendSubject(rt, q, rows, "ingestion_finished", "ingestion_run", q.runId, "");
      assert Subjects(rows) + [] == Subjects(rows);
    }
  }

  // ---------------------------------------------------------------- the ledger still verifies

  /** Row ids are clean and drawn once; the clock gives valid readings. */
  ghost predicate GoodDraws(rt: Runtime) {
    && (forall n :: Clean(rt.rowId(n)) && Valid(rt.clock(n)))
    && (forall m: nat, n: nat :: m != n ==> rt.rowId(m) != rt.rowId(n))
  }

  /** Ids of later rows are not in the table. */
  ghost predicate Undrawn(rt: Runtime, rows: seq<Row>) {
    forall k, n: nat :: 0 <= k < |rows| <= n ==> rows[k].id != rt.rowId(n)
  }

  ghost predicate SoundFor(rt: Runtime, rows: seq<Row>) {
    LedgerAppend.NearlySound(rt.digest, rows) && Undrawn(rt, rows)
  }

  /** Row `k` was sealed after its project's newest row at the time. */
  ghost predicate SealedAt(rt: Runtime, rows: seq<Row>, k: nat)
    requires k < |rows|
  {
    rows[k] == Ledger.Seal(rt.digest, rt.rowId(k), rows[k].event,
                           Ledger.Newest(Ledger.Own(rows[..k], rows[k].event.projectId)), rt.clock(k))
  }

  /** `b` is `a` with events appended. */
  ghost predicate Grown(rt: Runtime, a: seq<Row>, b: seq<Row>) {
    a <= b && forall k :: |a| <= k < |b| ==> SealedAt(rt, b, k)
  }

  lemma GrownTransitive(rt: Runtime, a: seq<Row>, b: seq<Row>, c: seq<Row>)
    requires Grown(rt, a, b) && Grown(rt, b, c)
    ensures Grown(rt, a, c)
  {
    hide Ledger.Seal, Ledger.Own, Ledger.Newest;
    forall k | |a| <= k < |c| ensures SealedAt(rt, c, k) {
      if k < |b| {
        assert SealedAt(rt, b, k) && c[..k] == b[..k];
      }
    }
  }

  lemma AppendGrown(rt: Runtime, q: Request, rows: seq<Row>, eventType: string, objectType: string, objectId: string,
      reason: string)
    ensures Grown(rt, rows, Append(rt, q, rows, eventType, objectType, objectId, reason))
  {
    hide Ledger.Own, Ledger.Newest, Ledger.Stamp;
    assert Append(rt, q, rows, eventType, objectType, objectId, reason)[..|rows|] == rows;
  }

  lemma {:induction false} WritesGrown(rt: Runtime, q: Request, p: Progress, cs: seq<Candidates.Candidate>, n: nat)
    requires n <= |cs|
    ensures Grown(rt, p.ledger, WriteFirst(rt, q, p, cs, n).ledger)
  {
    hide Append, Commit, Scan, Detected, SealedAt;
    if n > 0 {
      var before := WriteFirst(rt, q, p, cs, n - 1);
      WritesGrown(rt, q, p, cs, n - 1);
      var (_, r) := Commit(rt.setting.governor, rt.setting.policy, before.tables, cs[n - 1], q.source.project,
        q.claimId(n - 1), q.source.now);
      if Truthy(r.matched) {
        AppendGrown(
          rt, q, before.ledger, "claim_written", "claim", r.matched.value, "candidate passed memory write governor");
        GrownTransitive(rt, p.ledger, before.ledger, WriteFirst(rt, q, p, cs, n).ledger);
      }
    }
  }

  lemma ClosedGrown(rt: Runtime, q: Request, rows: seq<Row>)
    ensures Grown(rt, rows, Closed(rt, q, rows))
  {
    hide Append, SealedAt;
    var clustered :=
      if q.rebuildClusters then Append(rt, q, rows, "clusters_rebuilt", "claim_clusters", q.source.project, "")
      else rows;
    AppendGrown(rt, q, rows, "clusters_rebuilt", "claim_clusters", q.source.project, "");
    AppendGrown(rt, q, clustered, "ingestion_finished", "ingestion_run", q.runId, "");
    GrownTransitive(rt, rows, clustered, Closed(rt, q, rows));
  }

  lemma SuccessGrown(rt: Runtime, q: Request, s: State)
    requires Accepted(IngestOf(rt, q, s).1)
    ensures Grown(rt, s.ledger, Success(rt, q, s).ledger)
  {
    hide Append, Ingest, WriteFirst, Grown, ToWrite, Closed;
    var r := IngestOf(rt, q, s).1;
    var started := Append(rt, q, s.ledger, "ingestion_started", "ingestion_run", q.runId, "");
    var told := AfterEvidence(rt, q, s);
    var p := AfterClaims(rt, q, s);
    AppendGrown(rt, q, s.ledger, "ingestion_started", "ingestion_run", q.runId, "");
    AppendGrown(rt, q, started, "evidence_ingested", "evidence", r.evidenceId, "");
    GrownTransitive(rt, s.ledger, started, told.ledger);
    WritesGrown(rt, q, told, ToWrite(rt, q, s), |ToWrite(rt, q, s)|);
    GrownTransitive(rt, s.ledger, told.ledger, p.ledger);
    ClosedGrown(rt, q, p.ledger);
    GrownTransitive(rt, s.ledger, p.ledger, Success(rt, q, s).ledger);
  }

  /** What is left of `base` whether or not the handler raises. */
  ghost predicate LeftOf(rt: Runtime, q: Request, base: State, end: State) {
    end == base || end == WithFailedJob(q, base) || end == Failure(rt, q, base)
  }

  /** A state a run can leave: of the state it began in, or of the one it committed. */
  ghost predicate Ended(rt: Runtime, q: Request, s: State, end: State) {
    LeftOf(rt, q, s, end) || (Accepted(IngestOf(rt, q, s).1) && LeftOf(rt, q, Success(rt, q, s), end))
  }

  lemma LeftGrown(rt: Runtime, q: Request, base: State, end: State)
    requires LeftOf(rt, q, base, end)
    ensures Grown(rt, base.ledger, end.ledger) && |end.ledger| <= |base.ledger| + 1
  {
    hide Append;
    AppendGrown(rt, q, base.ledger, "ingestion_failed", "ingestion_run", q.runId, "");
    AppendPrefix(rt, q, base.ledger, "ingestion_failed", "ingestion_run", q.runId, "");
  }

  lemma EndGrown(rt: Runtime, q: Request, s: State, end: State)
    requires Ended(rt, q, s, end)
    ensures Grown(rt, s.ledger, end.ledger)
  {
    hide Ingest, Success, Grown, LeftOf;
    if LeftOf(rt, q, s, end) {
      LeftGrown(rt, q, s, end);
    } else {
      SuccessGrown(rt, q, s);
      LeftGrown(rt, q, Success(rt, q, s), end);
      GrownTransitive(rt, s.ledger, Success(rt, q, s).ledger, end.ledger);
    }
  }

  lemma UndrawnAppend(rt: Runtime, rows: seq<Row>, row: Row)
    requires GoodDraws(rt) && Undrawn(rt, rows) && row.id == rt.rowId(|rows|)
    ensures Undrawn(rt, rows + [row]) && !LedgerAppend.HasId(rows, row.id)
  {
    hide Clean, Valid;
  }

  lemma SealedStaysSound(rt: Runtime, rows: seq<Row>, e: Ledger.Event)
    requires GoodDraws(rt) && SoundFor(rt, rows)
    ensures SoundFor(
              rt,
              rows + [Ledger.Seal(rt.digest, rt.rowId(|rows|), e, Ledger.Newest(Ledger.Own(rows, e.projectId)),
                                  rt.clock(|rows|))])
  {
    hide LedgerAppend.NearlySound, Ledger.Own, Ledger.Newest, Clean, Valid, Undrawn, Ledger.Seal, LedgerAppend.HasId;
    SealedId(rt, rows, e);
    UndrawnAppend(rt, rows,
      Ledger.Seal(rt.digest, rt.rowId(|rows|), e, Ledger.Newest(Ledger.Own(rows, e.projectId)), rt.clock(|rows|)));
    LedgerAppend.AppendNearlySound(rt.digest, rows, rt.rowId(|rows|), e, rt.clock(|rows|));
  }

  lemma {:induction false} GrownSound(rt: Runtime, a: seq<Row>, b: seq<Row>)
    requires GoodDraws(rt) && SoundFor(rt, a) && Grown(rt, a, b)
    ensures SoundFor(rt, b)
    decreases |b|
  {
    hide GoodDraws, SoundFor, Ledger.Own, Ledger.Newest, Ledger.Seal;
    if |a| < |b| {
      var n := |b| - 1;
      GrownInit(rt, a, b);
      GrownSound(rt, a, b[..n]);
      assert SealedAt(rt, b, n) && b == b[..n] + [b[n]];
      SealedStaysSound(rt, b[..n], b[n].event);
    } else {
      assert a == b;
    }
  }

  lemma GrownInit(rt: Runtime, a: seq<Row>, b: seq<Row>)
    requires Grown(rt, a, b) && |a| < |b|
    ensures Grown(rt, a, b[..|b| - 1])
  {
    hide Ledger.Seal, Ledger.Own, Ledger.Newest;
    var init := b[..|b| - 1];
    forall k | |a| <= k < |init| ensures SealedAt(rt, init, k) {
      assert SealedAt(rt, b, k) && init[..k] == b[..k];
    }
  }

  lemma SealedId(rt: Runtime, rows: seq<Row>, e: Ledger.Event)
    ensures Ledger.Seal(rt.digest, rt.rowId(|rows|), e, Ledger.Newest(Ledger.Own(rows, e.projectId)),
                        rt.clock(|rows|)).id
              == rt.rowId(|rows|)
  {
  }

  /** The project's rows are one chain, accepted and unforked, exactly when at most the last carries `datetime.max`. */
  ghost predicate ChainStands(rt: Runtime, rows: seq<Row>, project: string) {
    var own := Ledger.Own(rows, project);
    && (Ledger.WellChained(rt.digest, own) <==> LedgerAppend.NoLatest(LedgerAppend.Init(own)))
    && (LedgerAppend.NoLatest(LedgerAppend.Init(own)) ==>
         Ledger.Chained(rt.digest, own, true) && LedgerAppend.NoFork(own))
  }

  /** However a governed ingestion ends, the handler's own faults included, every project's chain stands. */
  lemma LedgerStillVerifies(rt: Runtime, q: Request, s: State, end: State, project: string)
    requires Ledger.CollisionFree(rt.digest) && GoodDraws(rt) && SoundFor(rt, s.ledger) && Ended(rt, q, s, end)
    ensures ChainStands(rt, end.ledger, project)
  {
    hide Ended, Grown, LedgerAppend.NearlySound;
    EndGrown(rt, q, s, end);
    GrownSound(rt, s.ledger, end.ledger);
    LedgerAppend.NearlySoundChains(rt.digest, end.ledger, project);
  }

  lemma {:induction false} GrownWithin(rt: Runtime, a: seq<Row>, b: seq<Row>, limit: DateTime)
    requires Grown(rt, a, b) && LedgerAppend.Within(a, limit) && Valid(limit)
    requires forall n: nat :: Valid(rt.clock(n)) && !Before(limit, rt.clock(n))
    requires LedgerAppend.Later(limit, |b| - |a|).Some?
    ensures Valid(LedgerAppend.Later(limit, |b| - |a|).value)
    ensures LedgerAppend.Within(b, LedgerAppend.Later(limit, |b| - |a|).value)
    decreases |b| - |a|
  {
    hide LedgerAppend.Within, Ledger.Own, Ledger.Newest, Before, Valid, Tick, Ledger.Seal;
    if |a| < |b| {
      var next := b[..|a| + 1];
      assert SealedAt(rt, b, |a|) && b[..|a|] == a && next == a + [b[|a|]];
      LedgerAppend.SealWithin(rt.digest, a, rt.rowId(|a|), b[|a|].event, rt.clock(|a|), limit);
      forall n: nat ensures !Before(Tick(limit).value, rt.clock(n)) {
        LedgerAppend.ClockWithinTick(rt.clock(n), limit);
      }
      GrownWithin(rt, next, b, Tick(limit).value);
    } else {
      assert a == b;
    }
  }

  lemma {:induction false} LaterLess(d: DateTime, m: nat, n: nat)
    requires Valid(d) && m <= n && LedgerAppend.Later(d, n).Some? && LedgerAppend.Later(d, n).value != LATEST
    ensures LedgerAppend.Later(d, m).Some? && LedgerAppend.Later(d, m).value != LATEST
    decreases m
  {
    if m > 0 {
      TickIsNext(d, d);
      LaterLess(Tick(d).value, m - 1, n - 1);
    } else if n > 0 {
      TickIsNext(d, d);
    }
  }

  /** No run adds more rows than this. */
  function AtMostRows(rt: Runtime, q: Request, s: State): nat {
    if Accepted(IngestOf(rt, q, s).1) then |ToWrite(rt, q, s)| + 5 else 1
  }

  lemma RowsAdded(rt: Runtime, q: Request, s: State, end: State)
    requires Ended(rt, q, s, end)
    ensures |end.ledger| <= |s.ledger| + AtMostRows(rt, q, s)
  {
    hide Ingest, WriteFirst, Success, ToWrite, LeftOf, Grown;
    if LeftOf(rt, q, s, end) {
      LeftGrown(rt, q, s, end);
    } else {
      SuccessRows(rt, q, s);
      LeftGrown(rt, q, Success(rt, q, s), end);
    }
  }

  lemma SuccessRows(rt: Runtime, q: Request, s: State)
    requires Accepted(IngestOf(rt, q, s).1)
    ensures |s.ledger| < |Success(rt, q, s).ledger| <= |s.ledger| + |ToWrite(rt, q, s)| + 4
  {
    hide Append, Ingest, ToWrite;
    EventsInOrder(rt, q, s);
    WriteSubjects(rt, q, AfterEvidence(rt, q, s), ToWrite(rt, q, s), |ToWrite(rt, q, s)|);
    ClaimSubjectsFewer(Returned(rt, q, s).writes);
  }

  /** A run that failed before its commit and one that failed after it leave different states. */
  lemma FailuresDiffer(rt: Runtime, q: Request, s: State)
    requires Accepted(IngestOf(rt, q, s).1)
    ensures Failure(rt, q, s) != Failure(rt, q, Success(rt, q, s))
  {
    hide Ingest, ToWrite, Success;
    SuccessRows(rt, q, s);
    AppendPrefix(rt, q, s.ledger, "ingestion_failed", "ingestion_run", q.runId, "");
    AppendPrefix(rt, q, Success(rt, q, s).ledger, "ingestion_failed", "ingestion_run", q.runId, "");
  }

  lemma {:induction false} ClaimSubjectsFewer(writes: seq<WriteResult>)
    ensures |ClaimSubjects(writes)| <= |writes|
  {
    if writes != [] {
      ClaimSubjectsFewer(writes[..|writes| - 1]);
    }
  }

  lemma AppendPrefix(rt: Runtime, q: Request, rows: seq<Row>, eventType: string, objectType: string, objectId: string,
      reason: string)
    ensures |Append(rt, q, rows, eventType, objectType, objectId, reason)| == |rows| + 1
  {
  }

  /**
   * What can be checked before the run: when the stamps and the clock stay no later than
   * `limit`, with room for the rows a run can add, every project's chain is accepted after it.
   */
  lemma RunLeavesRoom(rt: Runtime, q: Request, s: State, end: State, project: string, limit: DateTime)
    requires Ledger.CollisionFree(rt.digest) && GoodDraws(rt) && SoundFor(rt, s.ledger) && Ended(rt, q, s, end)
    requires Valid(limit) && LedgerAppend.Within(s.ledger, limit) && forall n: nat :: !Before(limit, rt.clock(n))
    requires LedgerAppend.Later(limit, AtMostRows(rt, q, s)).Some?
               && LedgerAppend.Later(limit, AtMostRows(rt, q, s)).value != LATEST
    ensures Ledger.Chained(rt.digest, Ledger.Own(end.ledger, project), true)
  {
    hide Ended, Grown, LedgerAppend.Within, SoundFor, AtMostRows, Before, Valid, LedgerAppend.Later, Ledger.Chained,
      LedgerAppend.NoLatest;
    EndGrown(rt, q, s, end);
    RowsAdded(rt, q, s, end);
    GrownLonger(rt, s.ledger, end.ledger);
    LaterLess(limit, |end.ledger| - |s.ledger|, AtMostRows(rt, q, s));
    GrownWithin(rt, s.ledger, end.ledger, limit);
    LedgerAppend.WithinNoLatest(end.ledger, LedgerAppend.Later(limit, |end.ledger| - |s.ledger|).value);
    LedgerAppend.OwnElements(end.ledger, project);
    LedgerProtocol.InitOf(end.ledger, Ledger.Own(end.ledger, project));
    LedgerStillVerifies(rt, q, s, end, project);
  }

  lemma GrownLonger(rt: Runtime, a: seq<Row>, b: seq<Row>)
    requires Grown(rt, a, b)
    ensures |a| <= |b|
  {
  }

  // ---------------------------------------------------------------- the job row

  /**
   * Beyond the jobs there were, a finished run leaves its own row, finished, and the
   * ingestor's, saved, or a duplicate when duplicates were not looked for.
   */
  lemma FinishedJobsAre(q: Request, jobs: seq<Job>, r: IngestResult)
    requires Accepted(r) && !HasJob(jobs, q.runId) && !HasJob(jobs, q.ids.job) && q.ids.job != q.runId
    ensures FinishedJobs(q, jobs, r) ==
            jobs + [Job(q.runId, q.source.project, PipelineFinished, Some(r.evidenceId))]
            + (if r.Ingested? then [Job(q.ids.job, q.source.project, EvidenceSaved, Some(r.evidenceId))]
               else if q.source.deduplicate then []
               else [Job(q.ids.job, q.source.project, DuplicateFound, Some(r.evidenceId))])
  {
    var all := IngestJobs(Started(q, jobs), q.source, q.ids, r);
    forall k | 0 <= k < |jobs| ensures all[k] == jobs[k] && jobs[k].id != q.runId {
    }
  }

  // ---------------------------------------------------------------- the tables

  /** Claim ids are drawn once and not in use. */
  ghost predicate NewClaimIds(claims: seq<Claim>, claimId: nat -> string, from: nat) {
    && (forall m: nat, n: nat :: m != n ==> claimId(m) != claimId(n))
    && (forall n: nat :: n >= from ==> !HasClaim(claims, claimId(n)))
  }

  lemma ScanSameIds(s: Setting, t: Tables, id: string)
    requires Kept(s.sha, t)
    ensures forall other :: HasClaim(Scan(s.detector, t, id).claims, other) ==> HasClaim(t.claims, other)
  {
    hide Kept, Evolves, Scan;
    match Lookup(t.claims, id) {
      case None => ScanOfNone(s, t, id);
      case Some(c) =>
        ScanOfSome(s, t, id, c);
        ScanFromSameIds(s, t, c, Rivals(s.detector, t, c));
    }
  }

  lemma ScanOfNone(s: Setting, t: Tables, id: string)
    requires Lookup(t.claims, id).None?
    ensures Scan(s.detector, t, id) == t
  {
  }

  lemma ScanOfSome(s: Setting, t: Tables, id: string, c: Claim)
    requires Lookup(t.claims, id) == Some(c)
    ensures Scan(s.detector, t, id) == ScanFrom(s.detector, t, c, Rivals(s.detector, t, c))
  {
  }

  lemma {:induction false} ScanFromSameIds(s: Setting, t: Tables, c: Claim, rivals: seq<Claim>)
    ensures forall other :: HasClaim(ScanFrom(s.detector, t, c, rivals).claims, other) ==> HasClaim(t.claims, other)
    decreases |rivals|
  {
    hide Detect, HasClaim, Record;
    if rivals != [] {
      var n := if Detect(s.detector, c, rivals[0]).Some? then Record(t, c.id, rivals[0].id) else t;
      RecordSameIds(t, c.id, rivals[0].id);
      ScanFromSameIds(s, n, c, rivals[1..]);
    }
  }

  lemma RecordSameIds(t: Tables, a: string, b: string)
    ensures forall other :: HasClaim(Record(t, a, b).claims, other) ==> HasClaim(t.claims, other)
  {
    var n := Record(t, a, b);
    forall other | HasClaim(n.claims, other) ensures HasClaim(t.claims, other) {
      var k :| 0 <= k < |n.claims| && n.claims[k].id == other;
      assert t.claims[k].id == other;
    }
  }

  lemma CommitIds(s: Setting, t: Tables, c: Candidates.Candidate, project: string, id: string, now: string,
      other: string)
    requires HasClaim(Commit(s.governor, s.policy, t, c, project, id, now).0.claims, other)
    ensures HasClaim(t.claims, other) || other == id
  {
    hide Decide;
    var n := Commit(s.governor, s.policy, t, c, project, id, now).0;
    var k :| 0 <= k < |n.claims| && n.claims[k].id == other;
    if k < |t.claims| {
      assert t.claims[k].id == other;
    }
  }

  /** The invariant holds after each of the first `n` writes, and before them. */
  ghost predicate KeptThroughout(rt: Runtime, q: Request, p: Progress, cs: seq<Candidates.Candidate>, n: nat)
    requires n <= |cs|
  {
    forall m :: 0 <= m <= n ==> Kept(rt.setting.sha, WriteFirst(rt, q, p, cs, m).tables)
  }

  /** Write number `k` saves its candidate as a new claim. */
  predicate SavesAt(rt: Runtime, q: Request, p: Progress, cs: seq<Candidates.Candidate>, k: nat)
    requires k < |cs|
  {
    var t := WriteFirst(rt, q, p, cs, k).tables;
    var s := rt.setting;
    |Commit(s.governor, s.policy, t, cs[k], q.source.project, q.claimId(k), q.source.now).0.claims| > |t.claims|
  }

  ghost predicate SavedInRange(rt: Runtime, q: Request, p: Progress, cs: seq<Candidates.Candidate>, n: nat)
    requires n <= |cs|
  {
    forall k :: 0 <= k < n && SavesAt(rt, q, p, cs, k) ==> Candidates.InRange(cs[k])
  }

  lemma NewClaimIdsAfter(
    rt: Runtime, q: Request, t: Tables, c: Candidates.Candidate, k: nat)
    requires NewClaimIds(t.claims, q.claimId, k)
    ensures var s := rt.setting;
            var u := Commit(s.governor, s.policy, t, c, q.source.project, q.claimId(k), q.source.now).0;
            NewClaimIds(u.claims, q.claimId, k + 1)
  {
    hide Commit, HasClaim;
    var s := rt.setting;
    var u := Commit(s.governor, s.policy, t, c, q.source.project, q.claimId(k), q.source.now).0;
    forall m: nat | m >= k + 1 ensures !HasClaim(u.claims, q.claimId(m)) {
      assert q.claimId(m) != q.claimId(k) && !HasClaim(t.claims, q.claimId(m));
      if HasClaim(u.claims, q.claimId(m)) {
        CommitIds(s, t, c, q.source.project, q.claimId(k), q.source.now, q.claimId(m));
        assert false;
      }
    }
  }

  /** One write and its scan: nothing is lost, and the invariant stays exactly when what is saved is in range. */
  lemma WriteKeepsIff(rt: Runtime, q: Request, p: Progress, cs: seq<Candidates.Candidate>, k: nat)
    requires k < |cs|
    requires var t := WriteFirst(rt, q, p, cs, k).tables;
             Kept(rt.setting.sha, t) && NewClaimIds(t.claims, q.claimId, k)
    ensures var t, n := WriteFirst(rt, q, p, cs, k).tables, WriteFirst(rt, q, p, cs, k + 1).tables;
            && (SavesAt(rt, q, p, cs, k) && !Candidates.InRange(cs[k]) ==> !Kept(rt.setting.sha, n))
            && ((SavesAt(rt, q, p, cs, k) ==> Candidates.InRange(cs[k])) ==>
                  Good(rt.setting.sha, t, n) && NewClaimIds(n.claims, q.claimId, k + 1))
  {
    hide Kept, Evolves, Append, Commit, Scan, Detected, HasClaim, NewClaimIds, Candidates.InRange, InUnit;
    var s := rt.setting;
    var t, n := WriteFirst(rt, q, p, cs, k).tables, WriteFirst(rt, q, p, cs, k + 1).tables;
    var id := q.claimId(k);
    NotYet(t, q, k);
    CommitKeepsIff(s, t, cs[k], q.source.project, id, q.source.now);
    NewClaimIdsAfter(rt, q, t, cs[k], k);
    var (u, r) := Commit(s.governor, s.policy, t, cs[k], q.source.project, id, q.source.now);
    if Truthy(r.matched) {
      ScanSamePlaces(s.detector, u, r.matched.value);
      NewClaimIdsKept(u.claims, n.claims, q.claimId, k + 1);
      if SavesAt(rt, q, p, cs, k) && !Candidates.InRange(cs[k]) {
        SameUnit(u.claims[|t.claims|], n.claims[|t.claims|]);
        OutOfRange(s.sha, n, |t.claims|);
      } else {
        ScanKeeps(s, u, r.matched.value);
        EvolvesTransitive(t, u, n);
      }
    }
  }

  lemma SameUnit(a: Claim, b: Claim)
    requires b == a.(status := b.status)
    ensures InUnit(a) <==> InUnit(b)
  {
  }

  lemma NotYet(t: Tables, q: Request, k: nat)
    requires NewClaimIds(t.claims, q.claimId, k)
    ensures !HasClaim(t.claims, q.claimId(k))
  {
  }

  lemma ThroughoutStep(rt: Runtime, q: Request, p: Progress, cs: seq<Candidates.Candidate>, n: nat)
    requires 0 < n <= |cs|
    ensures KeptThroughout(rt, q, p, cs, n) <==>
              KeptThroughout(rt, q, p, cs, n - 1) && Kept(rt.setting.sha, WriteFirst(rt, q, p, cs, n).tables)
    ensures SavedInRange(rt, q, p, cs, n) <==>
              SavedInRange(rt, q, p, cs, n - 1) && (SavesAt(rt, q, p, cs, n - 1) ==> Candidates.InRange(cs[n - 1]))
  {
    hide Kept, WriteFirst, SavesAt, Candidates.InRange;
  }

  /** Ranges stay through any series of writes exactly when every candidate saved on the way is in range. */
  lemma {:induction false} WritesKeepIff(rt: Runtime, q: Request, p: Progress, cs: seq<Candidates.Candidate>, n: nat)
    requires n <= |cs| && Kept(rt.setting.sha, p.tables) && NewClaimIds(p.tables.claims, q.claimId, 0)
    ensures KeptThroughout(rt, q, p, cs, n) <==> SavedInRange(rt, q, p, cs, n)
    ensures SavedInRange(rt, q, p, cs, n) ==>
              && Good(rt.setting.sha, p.tables, WriteFirst(rt, q, p, cs, n).tables)
              && NewClaimIds(WriteFirst(rt, q, p, cs, n).tables.claims, q.claimId, n)
  {
    hide Kept, Evolves, WriteOne, NewClaimIds, Candidates.InRange, SavesAt;
    if n == 0 {
      Unchanged(rt.setting.sha, p.tables);
    } else {
      WritesKeepIff(rt, q, p, cs, n - 1);
      ThroughoutStep(rt, q, p, cs, n);
      hide KeptThroughout, SavedInRange, WriteFirst;
      if SavedInRange(rt, q, p, cs, n - 1) {
        WriteKeepsIff(rt, q, p, cs, n - 1);
        if SavesAt(rt, q, p, cs, n - 1) ==> Candidates.InRange(cs[n - 1]) {
          EvolvesTransitive(p.tables, WriteFirst(rt, q, p, cs, n - 1).tables, WriteFirst(rt, q, p, cs, n).tables);
        }
      }
    }
  }

  /** What a run relies on: ids drawn for evidence, chunks and claims are new. */
  ghost predicate NewIdsFor(q: Request, t: Tables) {
    && (forall e :: e in t.evidence ==> e.id != q.ids.evidence)
    && (forall c :: c in t.chunks ==> c.evidenceId != q.ids.evidence)
    && NewChunkIds(t.chunks, q.ids.chunk) && NewClaimIds(t.claims, q.claimId, 0)
  }

  lemma IngestSameClaims(rt: Runtime, q: Request, s: State)
    ensures IngestOf(rt, q, s).0.claims == s.tables.claims
    ensures IngestOf(rt, q, s).0.supports == s.tables.supports
  {
    hide ChunksOf, FindEvidence, Mapped;
  }

  /**
   * A finished run keeps the governance invariant all the way exactly when every candidate
   * it saves, rather than merges or drops, is in range; nothing is lost then.
   */
  lemma SuccessKeeps(rt: Runtime, q: Request, s: State)
    requires Accepted(IngestOf(rt, q, s).1) && Kept(rt.setting.sha, s.tables) && NewIdsFor(q, s.tables)
    ensures var told, cs := AfterEvidence(rt, q, s), ToWrite(rt, q, s);
            && (KeptThroughout(rt, q, told, cs, |cs|) <==> SavedInRange(rt, q, told, cs, |cs|))
            && (SavedInRange(rt, q, told, cs, |cs|) ==> Good(rt.setting.sha, s.tables, Success(rt, q, s).tables))
  {
    hide Kept, Evolves, Append, Ingest, WriteFirst, ToWrite, NewChunkIds, NewClaimIds, SavedInRange, KeptThroughout;
    IngestKeeps(rt.setting, s.tables, q.text, q.source, q.ids);
    IngestSameClaims(rt, q, s);
    var told := AfterEvidence(rt, q, s);
    WritesKeepIff(rt, q, told, ToWrite(rt, q, s), |ToWrite(rt, q, s)|);
    if SavedInRange(rt, q, told, ToWrite(rt, q, s), |ToWrite(rt, q, s)|) {
      EvolvesTransitive(s.tables, told.tables, Success(rt, q, s).tables);
    }
  }

  /**
   * With the extractor's own candidates it is enough that the numbers of every payload it
   * adapts, read as floats, lie in [0,1], and the sentence patterns draft such numbers.
   */
  lemma ExtractedRunKeeps(rt: Runtime, q: Request, s: State, x: EvidenceExtraction.Extractor)
    requires Accepted(IngestOf(rt, q, s).1) && Kept(rt.setting.sha, s.tables) && NewIdsFor(q, s.tables)
    requires IngestOf(rt, q, s).1.Ingested? ==>
               && rt.candidates(IngestOf(rt, q, s).0, q.ids.evidence)
                  == EvidenceExtraction.CandidatesFor(x, IngestOf(rt, q, s).0, q.ids.evidence)
               && EvidenceExtraction.NumbersInRange(x, IngestOf(rt, q, s).0, q.ids.evidence)
    ensures Good(rt.setting.sha, s.tables, Success(rt, q, s).tables)
  {
    hide Kept, Evolves, Success, NewChunkIds, NewClaimIds, EvidenceExtraction.CandidatesFor, Candidates.InRange,
      SavesAt;
    hide EvidenceExtraction.NumbersInRange;
    var cs := ToWrite(rt, q, s);
    if IngestOf(rt, q, s).1.Ingested? {
      EvidenceExtraction.CandidatesInRange(x, IngestOf(rt, q, s).0, q.ids.evidence);
      forall k | 0 <= k < |cs| ensures Candidates.InRange(cs[k]) {
        assert cs[k] in cs;
      }
    }
    SuccessKeeps(rt, q, s);
  }

  // ---------------------------------------------------------------- every stored quote is in the text

  predicate SpanAnchored(x: SupportSpan, text: string) {
    && x.charStart.Some? && x.charEnd.Some?
    && 0 <= x.charStart.value < x.charEnd.value <= |text|
    && text[x.charStart.value..x.charEnd.value] == x.quote
  }

  /** The support spans from `from` on quote the text at their own offsets. */
  ghost predicate AnchoredFrom(rows: seq<SupportSpan>, from: nat, text: string) {
    forall k :: from <= k < |rows| ==> SpanAnchored(rows[k], text)
  }

  lemma CommitAnchors(s: Setting, t: Tables, c: Candidates.Candidate, project: string, id: string, now: string,
      from: nat, text: string)
    requires Candidates.Anchored(c, text) && AnchoredFrom(t.supports, from, text)
    ensures AnchoredFrom(Commit(s.governor, s.policy, t, c, project, id, now).0.supports, from, text)
  {
    hide Decide, Mapped;
    var n := Commit(s.governor, s.policy, t, c, project, id, now).0;
    assert |n.supports| <= |t.supports| + 1 && t.supports <= n.supports;
    assert QuoteOf(c) == c.quote.value;
  }

  lemma {:induction false} ScanFromSameSupports(s: Setting, t: Tables, c: Claim, rivals: seq<Claim>)
    ensures ScanFrom(s.detector, t, c, rivals).supports == t.supports
    decreases |rivals|
  {
    hide Detect;
    if rivals != [] {
      ScanFromSameSupports(
        s, if Detect(s.detector, c, rivals[0]).Some? then Record(t, c.id, rivals[0].id) else t, c, rivals[1..]);
    }
  }

  lemma ScanSameSupports(s: Setting, t: Tables, id: string)
    ensures Scan(s.detector, t, id).supports == t.supports
  {
    if Lookup(t.claims, id).Some? {
      var c := Lookup(t.claims, id).value;
      ScanFromSameSupports(s, t, c, Rivals(s.detector, t, c));
    }
  }

  lemma {:induction false} WritesAnchor(rt: Runtime, q: Request, p: Progress, cs: seq<Candidates.Candidate>, n: nat,
      from: nat)
    requires n <= |cs| && AnchoredFrom(p.tables.supports, from, q.text)
    requires forall k :: 0 <= k < |cs| ==> Candidates.Anchored(cs[k], q.text)
    ensures AnchoredFrom(WriteFirst(rt, q, p, cs, n).tables.supports, from, q.text)
  {
    hide Append, Commit, Scan, Detected, AnchoredFrom, Candidates.Anchored;
    if n > 0 {
      WritesAnchor(rt, q, p, cs, n - 1, from);
      var s := rt.setting;
      var t := WriteFirst(rt, q, p, cs, n - 1).tables;
      CommitAnchors(s, t, cs[n - 1], q.source.project, q.claimId(n - 1), q.source.now, from, q.text);
      var (u, r) := Commit(s.governor, s.policy, t, cs[n - 1], q.source.project, q.claimId(n - 1), q.source.now);
      if Truthy(r.matched) {
        ScanSameSupports(s, u, r.matched.value);
      }
    }
  }

  /** Every support span a finished run adds quotes the ingested text at its own offsets. */
  lemma NewQuotesAreInTheText(rt: Runtime, q: Request, s: State)
    requires Accepted(IngestOf(rt, q, s).1)
    requires forall k :: 0 <= k < |ToWrite(rt, q, s)| ==> Candidates.Anchored(ToWrite(rt, q, s)[k], q.text)
    ensures AnchoredFrom(Success(rt, q, s).tables.supports, |s.tables.supports|, q.text)
  {
    hide Append, Ingest, WriteFirst, ToWrite, Candidates.Anchored;
    IngestSameClaims(rt, q, s);
    WritesAnchor(rt, q, AfterEvidence(rt, q, s), ToWrite(rt, q, s), |ToWrite(rt, q, s)|, |s.tables.supports|);
  }

  /**
   * With the candidates of the extractor, in any mode and whatever it answers, every
   * support span a finished run adds quotes the ingested text at its own offsets.
   */
  lemma ExtractedQuotesAreInTheText(rt: Runtime, q: Request, s: State, x: EvidenceExtraction.Extractor)
    requires Accepted(IngestOf(rt, q, s).1) && NewIdsFor(q, s.tables) && x.env.word == rt.setting.word
    requires IngestOf(rt, q, s).1.Ingested? ==>
               rt.candidates(IngestOf(rt, q, s).0, q.ids.evidence)
               == EvidenceExtraction.CandidatesFor(x, IngestOf(rt, q, s).0, q.ids.evidence)
    ensures AnchoredFrom(Success(rt, q, s).tables.supports, |s.tables.supports|, q.text)
  {
    hide Success, AnchoredFrom, Candidates.Anchored, NewChunkIds, NewClaimIds, EvidenceExtraction.CandidatesFor;
    var cs := ToWrite(rt, q, s);
    if IngestOf(rt, q, s).1.Ingested? {
      EvidenceExtraction.IngestedCandidatesAnchored(x, rt.setting.sha, s.tables, q.text, q.source, q.ids);
      forall k | 0 <= k < |cs| ensures Candidates.Anchored(cs[k], q.text) {
        assert cs[k] in cs;
      }
    }
    NewQuotesAreInTheText(rt, q, s);
  }

  /** A candidate that ends at a claim is scanned: every live rival it conflicts with is on record afterwards. */
  lemma WrittenIsScanned(rt: Runtime, q: Request, p: Progress, c: Candidates.Candidate, k: nat, claim: Claim,
      other: Claim)
    requires var (t, r) := Commit(rt.setting.governor, rt.setting.policy, p.tables, c, q.source.project, q.claimId(k),
               q.source.now);
             && Truthy(r.matched) && claim.id == r.matched.value
             && Lookup(t.claims, claim.id) == Some(claim) && other in t.claims
             && Rival(rt.setting.detector, claim, other) && Detect(rt.setting.detector, claim, other).Some?
    ensures OnRecord(WriteOne(rt, q, p, c, k).tables.contradictions, claim.id, other.id)
  {
    hide Commit, Scan, Append, Detected, Detect, OnRecord, Rival;
    var (t, r) := Commit(rt.setting.governor, rt.setting.policy, p.tables, c, q.source.project, q.claimId(k),
      q.source.now);
    ScanCovers(rt.setting.detector, t, claim, other);
  }

  // ---------------------------------------------------------------- nothing is revived

  lemma NewClaimIdsKept(a: seq<Claim>, b: seq<Claim>, claimId: nat -> string, n: nat)
    requires NewClaimIds(a, claimId, n) && |a| == |b| && forall k :: 0 <= k < |a| ==> b[k].id == a[k].id
    ensures NewClaimIds(b, claimId, n)
  {
    forall m: nat | m >= n ensures !HasClaim(b, claimId(m)) {
      assert !HasClaim(a, claimId(m));
      forall k | 0 <= k < |b| ensures b[k].id != claimId(m) {
        assert a[k].id != claimId(m);
      }
    }
  }

  lemma {:induction false} WritesNeverRevive(rt: Runtime, q: Request, p: Progress, cs: seq<Candidates.Candidate>,
      n: nat)
    requires n <= |cs| && Keyed(p.tables.claims) && NewClaimIds(p.tables.claims, q.claimId, 0)
    ensures var after := WriteFirst(rt, q, p, cs, n).tables.claims;
            LeavesRest(p.tables.claims, after) && Keyed(after) && NewClaimIds(after, q.claimId, n)
  {
    hide Append, Commit, Scan, Detected, HasClaim;
    if n > 0 {
      WritesNeverRevive(rt, q, p, cs, n - 1);
      var s := rt.setting;
      var t := WriteFirst(rt, q, p, cs, n - 1).tables;
      var c, id := cs[n - 1], q.claimId(n - 1);
      var (u, r) := Commit(s.governor, s.policy, t, c, q.source.project, id, q.source.now);
      CommitEndsLive(s.governor, s.policy, t, c, q.source.project, id, q.source.now);
      forall m: nat | m >= n ensures !HasClaim(u.claims, q.claimId(m)) {
        if HasClaim(u.claims, q.claimId(m)) {
          CommitIds(s, t, c, q.source.project, id, q.source.now, q.claimId(m));
        }
      }
      if Truthy(r.matched) {
        ScanLeavesRestIff(s.detector, u, r.matched.value);
        ScanSamePlaces(s.detector, u, r.matched.value);
        NewClaimIdsKept(u.claims, Scan(s.detector, u, r.matched.value).claims, q.claimId, n);
      }
    }
  }

  /**
   * Every claim the pipeline scans is live when it is scanned, so a finished run leaves
   * each claim that was not live exactly as it was.
   */
  lemma PipelineNeverRevives(rt: Runtime, q: Request, s: State)
    requires Accepted(IngestOf(rt, q, s).1) && Keyed(s.tables.claims) && NewClaimIds(s.tables.claims, q.claimId, 0)
    ensures LeavesRest(s.tables.claims, Success(rt, q, s).tables.claims)
  {
    hide Append, Ingest, WriteFirst, ToWrite, NewClaimIds;
    IngestSameClaims(rt, q, s);
    WritesNeverRevive(rt, q, AfterEvidence(rt, q, s), ToWrite(rt, q, s), |ToWrite(rt, q, s)|);
  }
}
