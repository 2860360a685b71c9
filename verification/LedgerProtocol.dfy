/**
 * Concurrent appends on Postgres, one statement per step. Each append takes the
 * project's advisory lock, which the transaction holds until it ends, reads the
 * newest row it can see, and inserts; a transaction may append many times, to many
 * projects, and then commits or rolls back. Reads see the committed rows and the
 * transaction's own (READ COMMITTED). `key` is the hash that turns a project into
 * a lock number: projects may share a number.
 */
module LedgerProtocol {
  import opened Options
  import opened Text
  import opened Timestamps
  import opened LedgerFraming
  import opened Ledger
  import opened LedgerAppend

  datatype Phase =
    | Idle
    | Holding(project: string)
    | HasRead(project: string, previous: Option<Row>)

  datatype Txn = Txn(local: seq<Row>, locks: set<int>, phase: Phase)

  datatype State = State(committed: seq<Row>, txns: map<nat, Txn>)

  datatype Step =
    | Begin(t: nat)
    | Lock(t: nat, project: string)
    | ReadHead(t: nat)
    | Insert(t: nat, row: Row, clock: DateTime)
    | Commit(t: nat)
    | Rollback(t: nat)

  type LockKey = string -> int

  /** What transaction `t` sees. */
  function View(s: State, t: nat): seq<Row>
    requires t in s.txns
  {
    s.committed + s.txns[t].local
  }

  ghost predicate IdInUse(s: State, id: string) {
    HasId(s.committed, id) || exists t :: t in s.txns && HasId(s.txns[t].local, id)
  }

  /** The row is for the project whose head was read, under an id nobody uses. */
  ghost predicate InsertFits(s: State, t: nat, row: Row) {
    && t in s.txns && s.txns[t].phase.HasRead? && row.event.projectId == s.txns[t].phase.project
    && Clean(row.id) && !IdInUse(s, row.id)
  }

  ghost predicate Enabled(h: Digest, key: LockKey, s: State, step: Step) {
    match step
    case Begin(t) => t !in s.txns
    case Lock(t, p) =>
      t in s.txns && s.txns[t].phase.Idle? && forall u :: u in s.txns && u != t ==> key(p) !in s.txns[u].locks
    case ReadHead(t) => t in s.txns && s.txns[t].phase.Holding?
    case Insert(t, row, clock) =>
      InsertFits(s, t, row) && Valid(clock) && row == Seal(h, row.id, row.event, s.txns[t].phase.previous, clock)
    case Commit(t) => t in s.txns
    case Rollback(t) => t in s.txns
  }

  function Apply(key: LockKey, s: State, step: Step): State {
    match step
    case Begin(t) => s.(txns := s.txns[t := Txn([], {}, Idle)])
    case Lock(t, p) =>
      if t !in s.txns then s
      else s.(txns := s.txns[t := s.txns[t].(locks := s.txns[t].locks + {key(p)}, phase := Holding(p))])
    case ReadHead(t) =>
      if t !in s.txns || !s.txns[t].phase.Holding? then s
      else
        var p := s.txns[t].phase.project;
        s.(txns := s.txns[t := s.txns[t].(phase := HasRead(p, Newest(Own(View(s, t), p))))])
    case Insert(t, row, clock) =>
      if t !in s.txns then s
      else s.(txns := s.txns[t := s.txns[t].(local := s.txns[t].local + [row], phase := Idle)])
    case Commit(t) =>
      if t !in s.txns then s else State(View(s, t), s.txns - {t})
    case Rollback(t) => s.(txns := s.txns - {t})
  }

  /** The state after a run, provided each step was possible when it was taken. */
  ghost predicate Run(h: Digest, key: LockKey, start: State, steps: seq<Step>, end: State)
    decreases |steps|
  {
    if steps == [] then start == end
    else Enabled(h, key, start, steps[0]) && Run(h, key, Apply(key, start, steps[0]), steps[1..], end)
  }

  // ---------------------------------------------------------------- the invariant

  /** Locks are exclusive, and cover the project in hand and every project already appended to. */
  ghost predicate Locking(key: LockKey, s: State) {
    && (forall t, u :: t in s.txns && u in s.txns && t != u ==> s.txns[t].locks !! s.txns[u].locks)
    && (forall t :: t in s.txns && !s.txns[t].phase.Idle? ==> key(s.txns[t].phase.project) in s.txns[t].locks)
    && (forall t, r :: t in s.txns && r in s.txns[t].local ==> key(r.event.projectId) in s.txns[t].locks)
  }

  ghost predicate Ids(s: State) {
    && DistinctIds(s.committed) && CleanIds(s.committed)
    && (forall t :: t in s.txns ==> DistinctIds(View(s, t)) && CleanIds(View(s, t)))
    && LocalsApart(s)
  }

  ghost predicate LocalsApart(s: State) {
    forall t, u :: t in s.txns && u in s.txns && t != u ==> IdsOf(s.txns[t].local) !! IdsOf(s.txns[u].local)
  }

  function IdsOf(rows: seq<Row>): (ids: set<string>)
    ensures forall r :: r in rows ==> r.id in ids
  {
    if rows == [] then {} else IdsOf(rows[..|rows| - 1]) + {rows[|rows| - 1].id}
  }

  ghost predicate Chains(h: Digest, s: State) {
    && (forall p :: ChainOk(h, Own(s.committed, p)))
    && (forall t, p :: t in s.txns ==> ChainOk(h, Own(View(s, t), p)))
  }

  /** What a transaction has read is still the newest row it can see. */
  ghost predicate Heads(s: State) {
    forall t :: t in s.txns && s.txns[t].phase.HasRead? ==>
      s.txns[t].phase.previous == Newest(Own(View(s, t), s.txns[t].phase.project))
  }

  ghost predicate Inv(h: Digest, key: LockKey, s: State) {
    Locking(key, s) && Ids(s) && Chains(h, s) && Heads(s)
  }

  // ---------------------------------------------------------------- tables put together

  lemma {:induction false} OwnConcat(a: seq<Row>, b: seq<Row>, p: string)
    ensures Own(a + b, p) == Own(a, p) + Own(b, p)
  {
    if b == [] {
      assert a + b == a && Own(a, p) + [] == Own(a, p);
    } else {
      hide Own;
      var init, last := b[..|b| - 1], b[|b| - 1];
      var tail := if last.event.projectId == p then [last] else [];
      assert b == init + [last];
      Assoc(a, init, [last]);
      OwnConcat(a, init, p);
      OwnAppend(a + init, last, p);
      OwnAppend(init, last, p);
      Assoc(Own(a, p), Own(init, p), tail);
    }
  }

  lemma {:induction false} OwnOfOthers(rows: seq<Row>, p: string)
    requires forall r :: r in rows ==> r.event.projectId != p
    ensures Own(rows, p) == []
  {
    if rows != [] {
      OwnOfOthers(rows[..|rows| - 1], p);
    }
  }

  /** A project another transaction has the lock of has no rows of this one. */
  lemma LockedOut(key: LockKey, s: State, t: nat, u: nat, p: string)
    requires Locking(key, s) && t in s.txns && u in s.txns && t != u
    requires key(p) in s.txns[u].locks
    ensures Own(s.txns[t].local, p) == []
  {
    forall r | r in s.txns[t].local ensures r.event.projectId != p {
      assert key(r.event.projectId) in s.txns[t].locks;
    }
    OwnOfOthers(s.txns[t].local, p);
  }

  // ---------------------------------------------------------------- each step keeps the invariant

  /** Ids and chains depend only on the rows, committed and uncommitted. */
  lemma RowsUnchanged(h: Digest, s: State, n: State)
    requires Ids(s) && Chains(h, s) && n.committed == s.committed
    requires forall u :: u in n.txns ==>
               n.txns[u].local == [] || (u in s.txns && n.txns[u].local == s.txns[u].local)
    ensures Ids(n) && Chains(h, n)
  {
    forall u | u in n.txns ensures View(n, u) == s.committed || (u in s.txns && View(n, u) == View(s, u)) {
    }
  }

  lemma BeginKeeps(h: Digest, key: LockKey, s: State, t: nat)
    requires Inv(h, key, s) && t !in s.txns
    ensures Inv(h, key, Apply(key, s, Begin(t)))
  {
    var n := Apply(key, s, Begin(t));
    RowsUnchanged(h, s, n);
    assert forall u :: u in s.txns ==> View(n, u) == View(s, u);
  }

  lemma RollbackKeeps(h: Digest, key: LockKey, s: State, t: nat)
    requires Inv(h, key, s) && t in s.txns
    ensures Inv(h, key, Apply(key, s, Rollback(t)))
  {
    var n := Apply(key, s, Rollback(t));
    RowsUnchanged(h, s, n);
    assert forall u :: u in n.txns ==> View(n, u) == View(s, u);
  }

  lemma LockKeeps(h: Digest, key: LockKey, s: State, t: nat, p: string)
    requires Inv(h, key, s) && Enabled(h, key, s, Lock(t, p))
    ensures Inv(h, key, Apply(key, s, Lock(t, p)))
  {
    hide Locking, Ids, Chains, Own, Newest;
    var n := Apply(key, s, Lock(t, p));
    RowsUnchanged(h, s, n);
    LockLocking(h, key, s, t, p);
    assert forall u :: u in n.txns ==> View(n, u) == View(s, u);
  }

  lemma LockLocking(h: Digest, key: LockKey, s: State, t: nat, p: string)
    requires Locking(key, s) && Enabled(h, key, s, Lock(t, p))
    ensures Locking(key, Apply(key, s, Lock(t, p)))
  {
  }

  lemma ReadKeeps(h: Digest, key: LockKey, s: State, t: nat)
    requires Inv(h, key, s) && Enabled(h, key, s, ReadHead(t))
    ensures Inv(h, key, Apply(key, s, ReadHead(t)))
  {
    hide Locking, Ids, Chains, Own, Newest;
    var n := Apply(key, s, ReadHead(t));
    RowsUnchanged(h, s, n);
    ReadLocking(h, key, s, t);
    assert forall u :: u in n.txns ==> View(n, u) == View(s, u);
  }

  lemma ReadLocking(h: Digest, key: LockKey, s: State, t: nat)
    requires Locking(key, s) && Enabled(h, key, s, ReadHead(t))
    ensures Locking(key, Apply(key, s, ReadHead(t)))
  {
  }

  lemma InsertLocking(key: LockKey, s: State, t: nat, row: Row, clock: DateTime)
    requires Locking(key, s) && InsertFits(s, t, row)
    ensures Locking(key, Apply(key, s, Insert(t, row, clock)))
  {
  }

  lemma InsertViews(key: LockKey, s: State, t: nat, row: Row, clock: DateTime)
    requires t in s.txns
    ensures var n := Apply(key, s, Insert(t, row, clock));
            && n.committed == s.committed && n.txns.Keys == s.txns.Keys && View(n, t) == View(s, t) + [row]
            && (forall u :: u in n.txns && u != t ==> n.txns[u] == s.txns[u] && View(n, u) == View(s, u))
  {
    var n := Apply(key, s, Insert(t, row, clock));
    forall u | u in n.txns && u != t ensures View(n, u) == View(s, u) {
    }
  }

  lemma InsertIds(key: LockKey, s: State, t: nat, row: Row, clock: DateTime)
    requires Ids(s) && InsertFits(s, t, row)
    ensures Ids(Apply(key, s, Insert(t, row, clock)))
  {
    InsertApart(key, s, t, row, clock);
    InsertViews(key, s, t, row, clock);
    FreshId(s, row.id);
    var view := View(s, t);
    forall i | 0 <= i < |view| ensures view[i].id != row.id {
      assert view[i] in s.committed || view[i] in s.txns[t].local;
    }
    DistinctAppend(view, row);
  }

  lemma InsertApart(key: LockKey, s: State, t: nat, row: Row, clock: DateTime)
    requires LocalsApart(s) && InsertFits(s, t, row)
    ensures LocalsApart(Apply(key, s, Insert(t, row, clock)))
  {
    var n := Apply(key, s, Insert(t, row, clock));
    var local := s.txns[t].local;
    assert (local + [row])[..|local|] == local;
    assert IdsOf(n.txns[t].local) == IdsOf(local) + {row.id};
    forall u | u in s.txns ensures row.id !in IdsOf(s.txns[u].local) {
      UnusedId(s.txns[u].local, row.id);
    }
  }

  lemma {:induction false} UnusedId(rows: seq<Row>, id: string)
    requires !HasId(rows, id)
    ensures id !in IdsOf(rows)
  {
    if rows != [] {
      var init := rows[..|rows| - 1];
      assert rows[|rows| - 1].id != id;
      forall k | 0 <= k < |init| ensures init[k].id != id {
        assert rows[k].id != id;
      }
      UnusedId(init, id);
    }
  }

  /** An unused id differs from the id of every row in the system. */
  lemma FreshId(s: State, id: string)
    requires !IdInUse(s, id)
    ensures forall r :: r in s.committed ==> r.id != id
    ensures forall t, r :: t in s.txns && r in s.txns[t].local ==> r.id != id
  {
    forall t, r | t in s.txns && r in s.txns[t].local ensures r.id != id {
      assert !HasId(s.txns[t].local, id);
    }
  }

  lemma InsertChains(h: Digest, key: LockKey, s: State, t: nat, row: Row, clock: DateTime)
    requires Chains(h, s) && InsertFits(s, t, row)
    requires ChainOk(h, Own(View(s, t), row.event.projectId) + [row])
    ensures Chains(h, Apply(key, s, Insert(t, row, clock)))
  {
    InsertViews(key, s, t, row, clock);
    var n := Apply(key, s, Insert(t, row, clock));
    forall p ensures ChainOk(h, Own(View(n, t), p)) {
      assert ChainOk(h, Own(View(s, t), p));
      OwnAppend(View(s, t), row, p);
      if p != row.event.projectId {
        assert Own(View(n, t), p) == Own(View(s, t), p);
      }
    }
    forall u, p | u in n.txns && u != t ensures ChainOk(h, Own(View(n, u), p)) {
      assert ChainOk(h, Own(View(s, u), p));
    }
  }

  lemma InsertKeeps(h: Digest, key: LockKey, s: State, t: nat, row: Row, clock: DateTime)
    requires Inv(h, key, s) && Enabled(h, key, s, Insert(t, row, clock))
    ensures Inv(h, key, Apply(key, s, Insert(t, row, clock)))
  {
    InsertLocking(key, s, t, row, clock);
    InsertIds(key, s, t, row, clock);
    ChainOkAppend(h, Own(View(s, t), row.event.projectId), row.id, row.event, clock);
    InsertChains(h, key, s, t, row, clock);
    InsertViews(key, s, t, row, clock);
  }

  /** After `t` commits, what `u` sees of a project is what it or `t` saw before: one of them had no rows there. */
  lemma {:induction false} CommitView(h: Digest, key: LockKey, s: State, t: nat, u: nat, p: string)
    requires Locking(key, s) && t in s.txns && u in s.txns && t != u
    ensures var n := Apply(key, s, Commit(t));
            && u in n.txns && n.txns[u] == s.txns[u]
            && (Own(View(n, u), p) == Own(View(s, u), p) || Own(View(n, u), p) == Own(View(s, t), p))
            && (key(p) in s.txns[u].locks ==> Own(View(n, u), p) == Own(View(s, u), p))
  {
    hide Own, Locking;
    var a, b := s.txns[t].local, s.txns[u].local;
    OwnConcat(s.committed + a, b, p);
    OwnConcat(s.committed, a, p);
    OwnConcat(s.committed, b, p);
    if key(p) in s.txns[u].locks {
      LockedOut(key, s, t, u, p);
    } else {
      NotLocked(key, s, u, p);
    }
  }

  lemma NotLocked(key: LockKey, s: State, u: nat, p: string)
    requires Locking(key, s) && u in s.txns && key(p) !in s.txns[u].locks
    ensures Own(s.txns[u].local, p) == []
  {
    forall r | r in s.txns[u].local ensures r.event.projectId != p {
      assert key(r.event.projectId) in s.txns[u].locks;
    }
    OwnOfOthers(s.txns[u].local, p);
  }

  lemma CommitIds(h: Digest, key: LockKey, s: State, t: nat)
    requires Ids(s) && t in s.txns
    ensures Ids(Apply(key, s, Commit(t)))
  {
    var n := Apply(key, s, Commit(t));
    forall u | u in n.txns ensures DistinctIds(View(n, u)) && CleanIds(View(n, u)) {
      CommitViewIds(s, t, u);
      assert View(n, u) == View(s, t) + s.txns[u].local;
    }
  }

  lemma {:induction false} CommitViewIds(s: State, t: nat, u: nat)
    requires Ids(s) && t in s.txns && u in s.txns && t != u
    ensures DistinctIds(View(s, t) + s.txns[u].local) && CleanIds(View(s, t) + s.txns[u].local)
  {
    var a, b := s.txns[t].local, s.txns[u].local;
    var x := View(s, t);
    forall i, j | 0 <= i < |x| && 0 <= j < |b| ensures x[i].id != b[j].id {
      if i < |s.committed| {
        assert View(s, u)[i] == s.committed[i] && View(s, u)[|s.committed| + j] == b[j];
      } else {
        assert x[i] in a && b[j] in b;
      }
    }
    DistinctConcat(x, b, View(s, u), |s.committed|);
  }

  lemma DistinctConcat(x: seq<Row>, b: seq<Row>, v: seq<Row>, k: nat)
    requires DistinctIds(x) && CleanIds(x) && DistinctIds(v) && CleanIds(v) && k + |b| == |v| && v[k..] == b
    requires forall i, j :: 0 <= i < |x| && 0 <= j < |b| ==> x[i].id != b[j].id
    ensures DistinctIds(x + b) && CleanIds(x + b)
  {
    forall j | 0 <= j < |b| ensures b[j] == v[k + j] {
    }
  }

  lemma CommitChains(h: Digest, key: LockKey, s: State, t: nat)
    requires Locking(key, s) && Chains(h, s) && t in s.txns
    ensures Chains(h, Apply(key, s, Commit(t)))
  {
    hide Own, ChainOk, Locking;
    var n := Apply(key, s, Commit(t));
    forall u, p | u in n.txns ensures ChainOk(h, Own(View(n, u), p)) {
      CommitView(h, key, s, t, u, p);
    }
    assert n.committed == View(s, t);
  }

  lemma CommitHeads(h: Digest, key: LockKey, s: State, t: nat)
    requires Locking(key, s) && Heads(s) && t in s.txns
    ensures Heads(Apply(key, s, Commit(t)))
  {
    hide Own, Newest;
    var n := Apply(key, s, Commit(t));
    forall u | u in n.txns && n.txns[u].phase.HasRead?
      ensures n.txns[u].phase.previous == Newest(Own(View(n, u), n.txns[u].phase.project))
    {
      CommitView(h, key, s, t, u, n.txns[u].phase.project);
    }
  }

  lemma CommitKeeps(h: Digest, key: LockKey, s: State, t: nat)
    requires Inv(h, key, s) && t in s.txns
    ensures Inv(h, key, Apply(key, s, Commit(t)))
  {
    hide Chains, Heads, Ids;
    CommitIds(h, key, s, t);
    CommitChains(h, key, s, t);
    CommitHeads(h, key, s, t);
  }

  lemma StepKeeps(h: Digest, key: LockKey, s: State, step: Step)
    requires Inv(h, key, s) && Enabled(h, key, s, step)
    ensures Inv(h, key, Apply(key, s, step))
  {
    match step
    case Begin(t) => BeginKeeps(h, key, s, t);
    case Lock(t, p) => LockKeeps(h, key, s, t, p);
    case ReadHead(t) => ReadKeeps(h, key, s, t);
    case Insert(t, row, clock) => InsertKeeps(h, key, s, t, row, clock);
    case Commit(t) => CommitKeeps(h, key, s, t);
    case Rollback(t) => RollbackKeeps(h, key, s, t);
  }

  // ---------------------------------------------------------------- every run

  lemma {:induction false} RunKeeps(h: Digest, key: LockKey, s: State, steps: seq<Step>, end: State)
    requires Inv(h, key, s) && Run(h, key, s, steps, end)
    ensures Inv(h, key, end)
    ensures s.committed <= end.committed
    decreases |steps|
  {
    if steps != [] {
      StepKeeps(h, key, s, steps[0]);
      RunKeeps(h, key, Apply(key, s, steps[0]), steps[1..], end);
    }
  }

  lemma StartKeeps(h: Digest, key: LockKey, start: seq<Row>)
    requires Sound(h, start)
    ensures Inv(h, key, State(start, map[]))
  {
    SoundIsNearly(h, start);
  }

  /**
   * Whatever the interleaving, the locks' numbering, the clocks and the rollbacks:
   * starting from a sound table, the committed rows are only ever added to, and every
   * project's committed rows form one chain in commit order from one null root exactly
   * when at most the last of them carries `datetime.max`. The project-scoped check then
   * accepts them, and no two of them share a predecessor.
   */
  lemma EveryInterleavingChains(
    h: Digest, key: LockKey, start: seq<Row>, steps: seq<Step>, end: State, p: string)
    requires CollisionFree(h) && Sound(h, start)
    requires Run(h, key, State(start, map[]), steps, end)
    ensures start <= end.committed
    ensures WellChained(h, Own(end.committed, p)) <==> NoLatest(Init(Own(end.committed, p)))
    ensures NoLatest(Init(Own(end.committed, p))) ==>
              Chained(h, Own(end.committed, p), true) && NoFork(Own(end.committed, p))
  {
    hide Locking, Heads, LocalsApart, ChainOk, Sound;
    StartKeeps(h, key, start);
    RunKeeps(h, key, State(start, map[]), steps, end);
    NearlySoundChains(h, end.committed, p);
  }

  // ---------------------------------------------------------------- far from datetime.max

  function Inserts(steps: seq<Step>): nat {
    if steps == [] then 0 else (if steps[0].Insert? then 1 else 0) + Inserts(steps[1..])
  }

  ghost predicate ClocksWithin(steps: seq<Step>, limit: DateTime) {
    forall k :: 0 <= k < |steps| && steps[k].Insert? ==> !Before(limit, steps[k].clock)
  }

  ghost predicate AllWithin(s: State, limit: DateTime) {
    Within(s.committed, limit) && forall t :: t in s.txns ==> Within(View(s, t), limit)
  }

  lemma InsertWithin(h: Digest, key: LockKey, s: State, t: nat, row: Row, clock: DateTime, limit: DateTime)
    requires Heads(s) && Enabled(h, key, s, Insert(t, row, clock)) && AllWithin(s, limit)
    requires Valid(limit) && !Before(limit, clock) && Tick(limit).Some?
    ensures AllWithin(Apply(key, s, Insert(t, row, clock)), Tick(limit).value)
  {
    hide Before, Tick, Valid, Within;
    InsertViews(key, s, t, row, clock);
    SealWithin(h, View(s, t), row.id, row.event, clock, limit);
    WithinTick(s.committed, limit);
    forall u | u in s.txns ensures Within(View(s, u), Tick(limit).value) {
      WithinTick(View(s, u), limit);
    }
  }

  lemma OtherWithin(key: LockKey, s: State, step: Step, limit: DateTime)
    requires AllWithin(s, limit) && !step.Insert?
    ensures AllWithin(Apply(key, s, step), limit)
  {
    hide Before, Valid, Own, Newest, Parse;
    var n := Apply(key, s, step);
    forall u | u in n.txns ensures Within(View(n, u), limit) {
      forall r | r in View(n, u) ensures Parse(r.createdAt).Some? && !Before(limit, Parse(r.createdAt).value) {
        if step.Commit? && step.t in s.txns {
          assert r in View(s, step.t) || r in View(s, u);
        } else {
          assert u in s.txns ==> r in View(s, u);
        }
      }
    }
  }

  lemma {:induction false} RunWithin(h: Digest, key: LockKey, s: State, steps: seq<Step>, end: State, limit: DateTime)
    requires Inv(h, key, s) && Run(h, key, s, steps, end) && AllWithin(s, limit)
    requires Valid(limit) && ClocksWithin(steps, limit) && Later(limit, Inserts(steps)).Some?
    ensures Within(end.committed, Later(limit, Inserts(steps)).value) && Valid(Later(limit, Inserts(steps)).value)
    decreases |steps|
  {
    hide Inv, AllWithin, Apply, Enabled, Before, Valid, Tick, Within;
    if steps == [] {
      EndWithin(end, limit);
    } else {
      StepKeeps(h, key, s, steps[0]);
      var n := Apply(key, s, steps[0]);
      if steps[0].Insert? {
        var next := Tick(limit).value;
        HeadsOf(h, key, s);
        ValidClock(h, key, s, steps[0]);
        InsertWithin(h, key, s, steps[0].t, steps[0].row, steps[0].clock, limit);
        forall k | 0 <= k < |steps[1..]| && steps[1..][k].Insert? ensures !Before(next, steps[1..][k].clock) {
          assert steps[k + 1] == steps[1..][k];
          LaterThan(steps[1..][k].clock, limit);
        }
        LaterThan(steps[0].clock, limit);
        RunWithin(h, key, n, steps[1..], end, next);
      } else {
        OtherWithin(key, s, steps[0], limit);
        forall k | 0 <= k < |steps[1..]| && steps[1..][k].Insert? ensures !Before(limit, steps[1..][k].clock) {
          assert steps[k + 1] == steps[1..][k];
        }
        RunWithin(h, key, n, steps[1..], end, limit);
      }
    }
  }

  lemma EndWithin(s: State, limit: DateTime)
    requires AllWithin(s, limit)
    ensures Within(s.committed, limit)
  {
  }

  lemma HeadsOf(h: Digest, key: LockKey, s: State)
    requires Inv(h, key, s)
    ensures Heads(s)
  {
  }

  lemma ValidClock(h: Digest, key: LockKey, s: State, step: Step)
    requires step.Insert? && Enabled(h, key, s, step)
    ensures Valid(step.clock)
  {
  }

  lemma LaterThan(clock: DateTime, limit: DateTime)
    requires Valid(limit) && Tick(limit).Some? && !Before(limit, clock)
    ensures Valid(Tick(limit).value) && !Before(Tick(limit).value, clock)
  {
  }

  /**
   * What can be checked before a run: when the stamps there are and the clock stay no
   * later than `limit`, and as many microseconds as rows are inserted still fit between
   * `limit` and `datetime.max`, every project's committed rows are one accepted chain.
   */
  lemma RoomIsEnough(
    h: Digest, key: LockKey, start: seq<Row>, steps: seq<Step>, end: State, p: string, limit: DateTime)
    requires CollisionFree(h) && Sound(h, start)
    requires Run(h, key, State(start, map[]), steps, end)
    requires Valid(limit) && Within(start, limit) && ClocksWithin(steps, limit)
    requires Later(limit, Inserts(steps)).Some? && Later(limit, Inserts(steps)).value != LATEST
    ensures WellChained(h, Own(end.committed, p)) && Chained(h, Own(end.committed, p), true)
  {
    hide Within, Before, Valid, Sound, Inv, Inserts, Later, WellChained, Chained, NoLatest;
    StartKeeps(h, key, start);
    RunWithin(h, key, State(start, map[]), steps, end, limit);
    WithinNoLatest(end.committed, Later(limit, Inserts(steps)).value);
    EveryInterleavingChains(h, key, start, steps, end, p);
    OwnElements(end.committed, p);
    InitOf(end.committed, Own(end.committed, p));
  }

  lemma InitOf(rows: seq<Row>, own: seq<Row>)
    requires NoLatest(rows) && forall r :: r in own ==> r in rows
    ensures NoLatest(Init(own))
  {
    assert forall r :: r in Init(own) ==> r in own;
  }

  /** What the lock is for: two rows sealed after the same read are never accepted together. */
  lemma UnlockedReadersFork(
    h: Digest, own: seq<Row>, id1: string, id2: string, e1: Event, e2: Event, c1: DateTime, c2: DateTime, scoped: bool)
    ensures var previous := Newest(own);
            !Chained(h, own + [Seal(h, id1, e1, previous, c1), Seal(h, id2, e2, previous, c2)], scoped)
  {
    var previous := Newest(own);
    var rows := own + [Seal(h, id1, e1, previous, c1), Seal(h, id2, e2, previous, c2)];
    if Chained(h, rows, scoped) {
      LinksDiffer(h, rows, scoped, |own|, |own| + 1);
    }
  }
}
