/**
 * A database connection: what its open transaction sees, what is committed, and
 * which statements raise. Nothing reaches the committed state but a commit.
 */
module Connections {
  import opened Options
  import Ledger
  import opened Store

  type Row = Ledger.Row

  datatype JobStatus = PipelineStarted | PipelineFinished | PipelineFailed | JobStarted | EvidenceSaved | DuplicateFound

  /** An `ingestion_jobs` row. */
  datatype Job = Job(id: string, projectId: string, status: JobStatus, evidenceId: Option<string>)

  datatype State = State(tables: Tables, ledger: seq<Row>, jobs: seq<Job>, projects: seq<string>)

  /** A statement that raises is among those numbered from `from` to `to`. */
  ghost predicate Faulty(raises: nat -> bool, from: nat, to: nat) {
    exists n :: from <= n < to && raises(n)
  }

  /** The project's row is there, `ensure` having added it when it was missing. */
  function WithProject(s: State, project: string): State {
    if project in s.projects then s else s.(projects := s.projects + [project])
  }

  class Connection {
    /** Whether the n-th statement raises, for whatever reason. */
    const raises: nat -> bool
    /** Whether leaving the n-th `with` block raises. */
    const leavingRaises: nat -> bool
    var executed: nat
    var left: nat
    var tables: Tables
    var ledger: seq<Row>
    var jobs: seq<Job>
    var projects: seq<string>
    var durable: State

    /** `connect()`: a new connection sees what is committed. */
    constructor (committed: State, raises: nat -> bool, leavingRaises: nat -> bool)
      ensures durable == committed == Seen() && executed == left == 0
      ensures this.raises == raises && this.leavingRaises == leavingRaises
    {
      this.raises, this.leavingRaises, executed, left, durable := raises, leavingRaises, 0, 0, committed;
      tables, ledger, jobs, projects := committed.tables, committed.ledger, committed.jobs, committed.projects;
    }

    /** What the open transaction sees. */
    function Seen(): State
      reads this
    {
      State(tables, ledger, jobs, projects)
    }

    /** One statement, before its effect: it may raise instead. */
    method Execute() returns (ok: bool)
      modifies this`executed
      ensures executed == old(executed) + 1
      ensures ok <==> !Faulty(raises, old(executed), executed)
    {
      ok := !raises(executed);
      executed := executed + 1;
      assert !ok ==> raises(executed - 1);
    }

    /** `commit()`, which can fail like any statement. */
    method Commit() returns (ok: bool)
      modifies this`executed, this`durable
      ensures executed == old(executed) + 1
      ensures ok <==> !Faulty(raises, old(executed), executed)
      ensures durable == if ok then Seen() else old(durable)
    {
      ok := Execute();
      if ok {
        durable := Seen();
      }
    }

    /** Leaving the `with` block of the connection: commit, or on an exception roll back. */
    method Exit(raised: bool) returns (ok: bool)
      modifies this
      ensures executed == old(executed) && left == old(left) + 1
      ensures ok <==> !raised && !leavingRaises(old(left))
      ensures durable == if ok then old(Seen()) else old(durable)
      ensures Seen() == durable
    {
      ok := !raised && !leavingRaises(left);
      left := left + 1;
      if ok {
        durable := Seen();
      } else {
        tables, ledger, jobs, projects := durable.tables, durable.ledger, durable.jobs, durable.projects;
      }
    }

    /**
     * `ProjectManager.ensure`, on a connection of its own: a missing project's row is
     * inserted and committed, whatever becomes of this connection's transaction. Leaving
     * that connection's block counts as part of its last statement.
     */
    method EnsureProject(project: string) returns (ok: bool)
      modifies this`executed, this`durable, this`projects
      ensures executed >= old(executed)
      ensures ok <==> !Faulty(raises, old(executed), executed)
      ensures durable == old(durable) || durable == WithProject(old(durable), project)
      ensures ok ==> durable == WithProject(old(durable), project)
      ensures project in old(durable).projects ==> executed == old(executed) + 1
      ensures durable == old(durable) ==> projects == old(projects)
      ensures old(Seen() == durable) ==> Seen() == durable
    {
      ok := Execute();
      if !ok {
        return;
      }
      if project !in durable.projects {
        ok := InsertProject(project);
        if ok {
          ok := Execute();
        }
      }
    }

    /** The insert, the row read back, and the commit. */
    method InsertProject(project: string) returns (ok: bool)
      requires project !in durable.projects
      modifies this`executed, this`durable, this`projects
      ensures executed >= old(executed)
      ensures ok <==> !Faulty(raises, old(executed), executed)
      ensures durable == if ok then WithProject(old(durable), project) else old(durable)
      ensures !ok ==> projects == old(projects)
      ensures old(Seen() == durable) ==> Seen() == durable
    {
      ok := Execute();
      if !ok {
        return;
      }
      ok := Execute();
      if !ok {
        return;
      }
      ok := Execute();
      if ok {
        durable := WithProject(durable, project);
        if project !in projects {
          projects := projects + [project];
        }
      }
    }
  }
}
