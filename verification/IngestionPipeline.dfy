/**
 * `TransactionalIngestionPipeline.ingest_text`: one transaction over jobs, ledger,
 * evidence and claims, any statement of which may raise.
 */
module IngestionPipeline {
  import opened Options
  import Ledger
  import Candidates
  import opened Store
  import opened Connections
  import opened WriteGovernor
  import opened Contradictions
  import opened EvidenceIngest
  import opened IngestionStates
  import opened PipelineProperties

  /** `MemoryLedger.append`: the lock and the newest row, the insert, and the commit when it commits for itself. */
  method AppendEvent(
    rt: Runtime, q: Request, con: Connection, eventType: string, objectType: string, objectId: string, reason: string,
      autocommit: bool)
    returns (ok: bool)
    modifies con`executed, con`ledger, con`durable
    ensures old(con.executed) <= con.executed <= old(con.executed) + 3
    ensures ok <==> !Faulty(con.raises, old(con.executed), con.executed)
    ensures ok ==> con.ledger == Append(rt, q, old(con.ledger), eventType, objectType, objectId, reason)
    ensures ok ==> con.executed == old(con.executed) + if autocommit then 3 else 2
    ensures !autocommit ==> con.durable == old(con.durable)
    ensures autocommit ==> con.durable == if ok then con.Seen() else old(con.durable)
  {
    hide Append;
    ok := con.Execute();
    if !ok {
      return;
    }
    ok := con.Execute();
    if !ok {
      return;
    }
    con.ledger := Append(rt, q, con.ledger, eventType, objectType, objectId, reason);
    if autocommit {
      ok := con.Commit();
    }
  }

  /** One turn of the loop over the candidates. */
  method WriteCandidate(rt: Runtime, q: Request, con: Connection, c: Candidates.Candidate, k: nat, ghost p: Progress)
    returns (ok: bool, r: WriteResult, found: nat)
    requires p.tables == con.tables && p.ledger == con.ledger
    modifies con`executed, con`tables, con`ledger, con`durable
    ensures con.executed >= old(con.executed) && (ok <==> !Faulty(con.raises, old(con.executed), con.executed))
    ensures con.durable == old(con.durable)
    ensures ok ==>
              Progress(con.tables, con.ledger, p.writes + [r], p.contradictions + found) == WriteOne(rt, q, p, c, k)
  {
    hide Commit, Scan, Detected, Append;
    var s := rt.setting;
    found := 0;
    ok, r := CommitCandidate(s.governor, s.policy, con, c, q.source.project, q.claimId(k), q.source.now, false);
    if !ok || !Truthy(r.matched) {
      return;
    }
    ok := AppendEvent(
      rt, q, con, "claim_written", "claim", r.matched.value, "candidate passed memory write governor", false);
    if !ok {
      return;
    }
    var out;
    ok, out := ScanNewClaim(s.detector, con, r.matched.value, false);
    found := |out|;
  }

  /** The loop over the candidates. */
  method WriteClaims(rt: Runtime, q: Request, con: Connection, cs: seq<Candidates.Candidate>)
    returns (ok: bool, writes: seq<WriteResult>, contradictions: nat)
    modifies con`executed, con`tables, con`ledger, con`durable
    ensures con.executed >= old(con.executed) && (ok <==> !Faulty(con.raises, old(con.executed), con.executed))
    ensures con.durable == old(con.durable)
    ensures ok ==> Progress(con.tables, con.ledger, writes, contradictions)
                   == WriteFirst(rt, q, Progress(old(con.tables), old(con.ledger), [], 0), cs, |cs|)
  {
    hide WriteOne;
    ok, writes, contradictions := true, [], 0;
    ghost var start := Progress(con.tables, con.ledger, [], 0);
    for k := 0 to |cs|
      invariant con.executed >= old(con.executed) && !Faulty(con.raises, old(con.executed), con.executed)
      invariant ok && con.durable == old(con.durable)
      invariant Progress(con.tables, con.ledger, writes, contradictions) == WriteFirst(rt, q, start, cs, k)
    {
      var r, found;
      ok, r, found := WriteCandidate(rt, q, con, cs[k], k, Progress(con.tables, con.ledger, writes, contradictions));
      if !ok {
        return;
      }
      writes, contradictions := writes + [r], contradictions + found;
    }
  }

  /** The run's row and its first event, the evidence and its event. */
  method BringIn(rt: Runtime, q: Request, con: Connection) returns (ok: bool, r: IngestResult)
    requires q.source.project in con.durable.projects
    modifies con`executed, con`tables, con`ledger, con`jobs, con`projects, con`durable
    ensures con.executed > old(con.executed) && (ok ==> !Faulty(con.raises, old(con.executed), con.executed))
    ensures !ok && Accepted(IngestOf(rt, q, old(con.Seen())).1) ==> Faulty(con.raises, old(con.executed), con.executed)
    ensures con.durable == old(con.durable) && con.projects == old(con.projects)
    ensures ok ==> r == IngestOf(rt, q, old(con.Seen())).1 && Accepted(r)
    ensures ok ==> Progress(con.tables, con.ledger, [], 0) == AfterEvidence(rt, q, old(con.Seen()))
    ensures ok ==> con.jobs == IngestJobs(Started(q, old(con.jobs)), q.source, q.ids, r)
  {
    hide Append, Ingest, IngestJobs;
    r := OverlapTooLarge;
    ok := con.Execute();
    if !ok {
      return;
    }
    con.jobs := Started(q, con.jobs);
    ok := AppendEvent(rt, q, con, "ingestion_started", "ingestion_run", q.runId, "", false);
    if !ok {
      return;
    }
    ok, r := IngestText(rt.setting.word, rt.setting.sha, con, q.text, q.source, q.ids, false);
    if !ok {
      return;
    }
    if !Accepted(r) {
      ok := false;
      return;
    }
    ok := AppendEvent(rt, q, con, "evidence_ingested", "evidence", r.evidenceId, "", false);
  }

  /** The clusters, the run's row updated, and the events that close the run. */
  method CloseRun(rt: Runtime, q: Request, con: Connection, evidenceId: string) returns (ok: bool)
    modifies con`executed, con`ledger, con`jobs, con`durable
    ensures con.executed >= old(con.executed) && (ok <==> !Faulty(con.raises, old(con.executed), con.executed))
    ensures con.durable == old(con.durable)
    ensures ok ==>
              con.ledger == Closed(rt, q, old(con.ledger))
              && con.jobs == Mapped(old(con.jobs), JobFinished(q.runId, evidenceId))
  {
    hide Append;
    ok := true;
    if q.rebuildClusters {
      ok := con.Execute();
      if !ok {
        return;
      }
      ok := AppendEvent(rt, q, con, "clusters_rebuilt", "claim_clusters", q.source.project, "", false);
      if !ok {
        return;
      }
    }
    ok := con.Execute();
    if !ok {
      return;
    }
    con.jobs := Mapped(con.jobs, JobFinished(q.runId, evidenceId));
    ok := AppendEvent(rt, q, con, "ingestion_finished", "ingestion_run", q.runId, "", false);
  }

  /** The body of the transaction. Nothing of it is committed before its last statement, wherever it stops. */
  method Transaction(rt: Runtime, q: Request, con: Connection) returns (ok: bool, outcome: Outcome)
    requires q.source.project in con.durable.projects
    modifies con`executed, con`tables, con`ledger, con`jobs, con`projects, con`durable
    ensures con.executed > old(con.executed) && (ok ==> !Faulty(con.raises, old(con.executed), con.executed))
    ensures !ok && Accepted(IngestOf(rt, q, old(con.Seen())).1) ==> Faulty(con.raises, old(con.executed), con.executed)
    ensures !ok ==> con.durable == old(con.durable)
    ensures ok ==> Accepted(IngestOf(rt, q, old(con.Seen())).1) && con.Seen() == con.durable
    ensures ok ==>
              con.durable == Success(rt, q, old(con.Seen())) && outcome == Returned(rt, q, old(con.Seen()))
              && outcome.Finished?
  {
    hide Append, Ingest, IngestJobs, WriteFirst, Closed;
    ghost var s := con.Seen();
    outcome := Raised;
    var r;
    ok, r := BringIn(rt, q, con);
    if !ok {
      return;
    }
    var cs := [];
    if q.extractClaims && r.Ingested? {
      ok := con.Execute();
      if !ok {
        return;
      }
      cs := rt.candidates(con.tables, r.evidenceId);
    }
    assert cs == ToWrite(rt, q, s) && Progress(con.tables, con.ledger, [], 0) == AfterEvidence(rt, q, s);
    var writes, contradictions;
    ok, writes, contradictions := WriteClaims(rt, q, con, cs);
    if !ok {
      return;
    }
    assert Progress(con.tables, con.ledger, writes, contradictions) == AfterClaims(rt, q, s);
    ok := CloseRun(rt, q, con, r.evidenceId);
    if !ok {
      return;
    }
    assert con.Seen() == Success(rt, q, s);
    ok := con.Commit();
    outcome := Finished(r.evidenceId, r.Duplicate?, writes, contradictions);
  }

  /** The exception handler: the run's row marked failed, or inserted when the rollback took it away, then the event. */
  method RecordFailure(rt: Runtime, q: Request, con: Connection)
    requires con.Seen() == con.durable
    modifies con
    ensures con.executed >= old(con.executed) && con.Seen() == con.durable
    ensures con.durable
            == AfterHandler(rt, q, con.raises, old(con.executed), con.leavingRaises(old(con.left)), old(con.durable))
  {
    hide Append;
    ghost var from := con.executed;
    var ok := con.Execute();
    if ok {
      ok := con.Execute();
    }
    if ok {
      if HasJob(con.jobs, q.runId) {
        con.jobs := Mapped(con.jobs, JobFailed(q.runId));
      } else {
        con.jobs := con.jobs + [Job(q.runId, q.source.project, PipelineFailed, None)];
      }
      ok := con.Commit();
    }
    assert ok <==> !Faulty(con.raises, from, from + 3);
    ok := con.Exit(!ok);
    if !ok {
      return;
    }
    ok := AppendEvent(rt, q, con, "ingestion_failed", "ingestion_run", q.runId, "", true);
    assert ok <==> !Faulty(con.raises, from + 3, from + 6);
    ok := con.Exit(!ok);
  }

  /**
   * `ingest_text`: all or nothing, whichever statement raises. `begun` and `handled` are the
   * numbers of the first statement of the transaction and of the handler. A run finishes
   * exactly when the text is not refused, no statement raises and leaving the transaction
   * does not. One that raises leaves, beyond the state it began in and the project's row,
   * only the failed job row and one `ingestion_failed` event, exactly when the text is refused
   * or a statement of the transaction raises. When only leaving it raises, everything has
   * been committed, and stays, marked failed. Less is recorded exactly when the handler
   * raises too. Every project's chain stands in any case.
   */
  method IngestGoverned(rt: Runtime, q: Request, con: Connection)
    returns (outcome: Outcome, ghost begun: nat, ghost handled: nat)
    requires con.Seen() == con.durable
    modifies con
    ensures con.Seen() == con.durable && old(con.executed) <= begun <= handled <= con.executed
    ensures q.source.project in old(con.durable).projects ==> begun == old(con.executed) + 1
    ensures outcome.NotStarted? <==> Faulty(con.raises, old(con.executed), begun)
    ensures outcome.NotStarted? <==> begun == handled
    ensures outcome.Finished? <==>
              && !outcome.NotStarted? && Whole(rt, q, old(con.durable), con.raises, begun, handled)
              && !con.leavingRaises(old(con.left))
    ensures var began := WithProject(old(con.durable), q.source.project);
            match outcome
            case Finished(_, _, _, _) => con.durable == Success(rt, q, began) && outcome == Returned(rt, q, began)
            case NotStarted => con.durable in {old(con.durable), began}
            case Raised =>
              con.durable == AfterHandler(
                rt, q, con.raises, handled, con.leavingRaises(old(con.left) + 1),
                if Whole(rt, q, old(con.durable), con.raises, begun, handled) then Success(rt, q, began) else began)
    ensures var began := WithProject(old(con.durable), q.source.project);
            outcome.Raised? && !Faulty(con.raises, handled, handled + 6) && !con.leavingRaises(old(con.left) + 1) ==>
              && (con.durable == Failure(rt, q, began) <==> !Whole(rt, q, old(con.durable), con.raises, begun, handled))
              && (Whole(rt, q, old(con.durable), con.raises, begun, handled) ==>
                    con.durable == Failure(rt, q, Success(rt, q, began)))
    ensures outcome.NotStarted? || Ended(rt, q, WithProject(old(con.durable), q.source.project), con.durable)
    ensures Ledger.CollisionFree(rt.digest) && GoodDraws(rt) && SoundFor(rt, old(con.durable.ledger)) ==>
              forall project :: ChainStands(rt, con.durable.ledger, project)
  {
    hide Append, Ingest, Success, Failure, Returned, Faulty, SoundFor, GoodDraws, ChainStands, Ledger.CollisionFree;
    ghost var start := con.durable;
    var ok := con.EnsureProject(q.source.project);
    begun, handled := con.executed, con.executed;
    if !ok {
      SameLedgerStands(rt, q, start, con.durable);
      return NotStarted, begun, handled;
    }
    ghost var began := con.Seen();
    var result;
    ok, result := Transaction(rt, q, con);
    ghost var base := con.durable;
    handled := con.executed;
    ok := con.Exit(!ok);
    if ok {
      EndStands(rt, q, began, con.durable);
      return result, begun, handled;
    }
    RecordFailure(rt, q, con);
    outcome := Raised;
    if Accepted(IngestOf(rt, q, began).1) {
      FailuresDiffer(rt, q, began);
    }
    HandledCalmly(rt, q, con.raises, handled, con.leavingRaises(old(con.left) + 1), base);
    HandledIsLeft(rt, q, con.raises, handled, con.leavingRaises(old(con.left) + 1), base);
    EndStands(rt, q, began, con.durable);
  }

  lemma HandledCalmly(rt: Runtime, q: Request, raises: nat -> bool, h: nat, leavingRaises: bool, base: State)
    ensures !Faulty(raises, h, h + 6) && !leavingRaises ==>
              AfterHandler(rt, q, raises, h, leavingRaises, base) == Failure(rt, q, base)
  {
    hide Failure;
  }

  lemma HandledIsLeft(rt: Runtime, q: Request, raises: nat -> bool, h: nat, leavingRaises: bool, base: State)
    ensures LeftOf(rt, q, base, AfterHandler(rt, q, raises, h, leavingRaises, base))
  {
    hide Failure, WithFailedJob, Faulty;
  }

  lemma EndStands(rt: Runtime, q: Request, began: State, end: State)
    requires Ended(rt, q, began, end)
    ensures Ledger.CollisionFree(rt.digest) && GoodDraws(rt) && SoundFor(rt, began.ledger) ==>
              forall project :: ChainStands(rt, end.ledger, project)
  {
    hide Ended, SoundFor, GoodDraws, ChainStands, Ledger.CollisionFree;
    if Ledger.CollisionFree(rt.digest) && GoodDraws(rt) && SoundFor(rt, began.ledger) {
      forall project ensures ChainStands(rt, end.ledger, project) {
        LedgerStillVerifies(rt, q, began, end, project);
      }
    }
  }

  lemma SameLedgerStands(rt: Runtime, q: Request, s: State, end: State)
    requires end.ledger == s.ledger
    ensures Ledger.CollisionFree(rt.digest) && GoodDraws(rt) && SoundFor(rt, s.ledger) ==>
              forall project :: ChainStands(rt, end.ledger, project)
  {
    hide SoundFor, GoodDraws, ChainStands, Ledger.CollisionFree;
    EndStands(rt, q, s, s);
  }

  /** Statement `at` raises, and no other. */
  ghost predicate OnlyAt(raises: nat -> bool, at: nat) {
    forall n: nat :: raises(n) <==> n == at
  }

  lemma FaultyOnlyAt(raises: nat -> bool, at: nat, from: nat, end: nat)
    requires OnlyAt(raises, at)
    ensures Faulty(raises, from, end) <==> from <= at < end
  {
    if from <= at < end {
      assert raises(at);
    }
  }

  /** The first event is not what a failed run may leave. */
  lemma StartIsNoFailure(rt: Runtime, q: Request, began: State)
    ensures var left := State(
              began.tables, Append(rt, q, began.ledger, "ingestion_started", "ingestion_run", q.runId, ""),
                              Started(q, began.jobs), began.projects);
            && left !in {began, WithFailedJob(q, began), Failure(rt, q, began)}
            && |left.ledger| == |began.ledger| + 1 && left.ledger[|began.ledger|].event.eventType == "ingestion_started"
  {
    assert Failure(rt, q, began).ledger[|began.ledger|].event.eventType == "ingestion_failed";
  }

  /**
   * Why no callee may commit for itself: had the first append done so, a fault in the next
   * statement would leave the started row and its event behind for good.
   */
  method AutocommitLeaks(rt: Runtime, q: Request, con: Connection)
    requires con.Seen() == con.durable && OnlyAt(con.raises, con.executed + 4)
    modifies con
    ensures var began := old(con.durable);
            && con.durable.jobs == Started(q, began.jobs)
            && |con.durable.ledger| == |began.ledger| + 1
            && con.durable.ledger[|began.ledger|].event.eventType == "ingestion_started"
            && con.durable !in {began, WithFailedJob(q, began), Failure(rt, q, began)}
  {
    ghost var at := con.executed + 4;
    StartIsNoFailure(rt, q, con.durable);
    hide Append, Failure, WithFailedJob, OnlyAt, Faulty;
    FaultyOnlyAt(con.raises, at, at - 4, at - 3);
    FaultyOnlyAt(con.raises, at, at - 3, at);
    FaultyOnlyAt(con.raises, at, at, at + 1);
    FaultyOnlyAt(con.raises, at, at - 3, at - 1);
    FaultyOnlyAt(con.raises, at, at - 3, at - 2);
    var ok := con.Execute();
    con.jobs := Started(q, con.jobs);
    ok := AppendEvent(rt, q, con, "ingestion_started", "ingestion_run", q.runId, "", true);
    ok := con.Execute();
    ok := con.Exit(!ok);
  }

  /** What a fault in the first statement of the transaction alone means. */
  lemma FirstRaises(rt: Runtime, q: Request, s: State, raises: nat -> bool, begun: nat, handled: nat)
    requires OnlyAt(raises, begun) && q.source.project in s.projects
    ensures WithProject(s, q.source.project) == s
    ensures begun > 0 ==> !Faulty(raises, begun - 1, begun)
    ensures begun < handled ==> !Whole(rt, q, s, raises, begun, handled) && !Faulty(raises, handled, handled + 6)
  {
    hide OnlyAt, Faulty, IngestOf, Accepted;
    if begun > 0 {
      FaultyOnlyAt(raises, begun, begun - 1, begun);
    }
    if begun < handled {
      FaultyOnlyAt(raises, begun, begun, handled);
      FaultyOnlyAt(raises, begun, handled, handled + 6);
    }
  }

  /**
   * A fault in the first statement of the transaction, and nowhere else: the run leaves its
   * failure and nothing more.
   */
  method EarlyFaultLeavesFailure(rt: Runtime, q: Request, con: Connection) returns (outcome: Outcome)
    requires con.Seen() == con.durable && q.source.project in con.durable.projects
    requires OnlyAt(con.raises, con.executed + 1) && !con.leavingRaises(con.left + 1)
    modifies con
    ensures outcome.Raised? && con.durable == Failure(rt, q, old(con.durable))
  {
    hide Failure, Success, Returned, OnlyAt, Faulty, Ended, IngestOf, Accepted, Whole, WithProject;
    hide ChainStands, GoodDraws, SoundFor, AfterHandler, Ledger.CollisionFree;
    ghost var start := con.durable;
    ghost var begun, handled;
    outcome, begun, handled := IngestGoverned(rt, q, con);
    FirstRaises(rt, q, start, con.raises, begun, handled);
  }

  /** No statement raises, only leaving the transaction does: the whole run stays, marked failed. */
  method LateFaultKeepsAll(rt: Runtime, q: Request, con: Connection) returns (outcome: Outcome)
    requires con.Seen() == con.durable && Accepted(IngestOf(rt, q, con.durable).1)
    requires (forall from, end :: !Faulty(con.raises, from, end)) && OnlyAt(con.leavingRaises, con.left)
    modifies con
    ensures outcome.Raised?
    ensures con.durable == Failure(rt, q, Success(rt, q, WithProject(old(con.durable), q.source.project)))
  {
    hide Failure, Success, Returned, Faulty, Ended, Ingest, WithProject, ChainStands, GoodDraws, SoundFor, AfterHandler;
    ghost var begun, handled;
    outcome, begun, handled := IngestGoverned(rt, q, con);
  }
}
