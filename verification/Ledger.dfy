/**
 * The append-only governance ledger: one hash chain per project, and the checker
 * that rebuilds the chain from the stored hashes alone. The hash function is a
 * parameter; where a result needs it, it is assumed collision-free.
 */
module Ledger {
  import opened Options
  import opened Text
  import opened Timestamps
  import opened LedgerFraming
  import opened Counting

  type Digest = seq<Byte> -> string

  ghost predicate CollisionFree(h: Digest) {
    forall x, y :: h(x) == h(y) ==> x == y
  }

  /** What a caller of `append` supplies. */
  datatype Event = Event(
    projectId: string, eventType: string, actor: Option<string>, objectType: string, objectId: Option<string>,
    beforeJson: string, afterJson: string, reason: string, metadataJson: string)

  datatype Row = Row(id: string, event: Event, previousHash: Option<string>, eventHash: string, createdAt: string)

  // ---------------------------------------------------------------- hashing

  /** The fields an event hash covers, in hashing order; the actor is not among them. */
  function Parts(id: string, e: Event, previous: Option<string>, createdAt: string): (parts: seq<string>)
    ensures |parts| == 11
  {
    [id, e.projectId, e.eventType, e.objectType, e.objectId.Or(""), e.beforeJson, e.afterJson, e.reason,
     previous.Or(""), createdAt, e.metadataJson]
  }

  function Covered(row: Row): (parts: seq<string>)
    ensures |parts| == 11
  {
    Parts(row.id, row.event, row.previousHash, row.createdAt)
  }

  predicate Recomputes(h: Digest, row: Row) {
    row.eventHash == h(Frame(Covered(row)))
  }

  // ---------------------------------------------------------------- appending

  /** `WHERE project_id = ?`, in insertion order. */
  function Own(rows: seq<Row>, project: string): seq<Row> {
    if rows == [] then []
    else Own(rows[..|rows| - 1], project)
         + (if rows[|rows| - 1].event.projectId == project then [rows[|rows| - 1]] else [])
  }

  /** `ORDER BY created_at DESC, id DESC`. */
  predicate Newer(a: Row, b: Row) {
    Less(b.createdAt, a.createdAt) || (a.createdAt == b.createdAt && Less(b.id, a.id))
  }

  /** ... `LIMIT 1`. */
  function Newest(rows: seq<Row>): Option<Row> {
    if rows == [] then None
    else
      var last := rows[|rows| - 1];
      match Newest(rows[..|rows| - 1])
      case None => Some(last)
      case Some(best) => if Newer(last, best) then Some(last) else Some(best)
  }

  /** The clock reading, pushed past the previous row's stamp when that one can be read and advanced. */
  function Stamp(previous: Option<Row>, clock: DateTime): string {
    match previous
    case None => Print(clock)
    case Some(row) =>
      match Parse(row.createdAt)
      case None => Print(clock)
      case Some(before) =>
        if Before(before, clock) then Print(clock)
        else match Tick(before)
          case Some(next) => Print(next)
          case None => Print(clock)
  }

  /** The row `append` inserts after `previous`. */
  function Seal(h: Digest, id: string, e: Event, previous: Option<Row>, clock: DateTime): Row {
    var link := match previous case Some(row) => Some(row.eventHash) case None => None;
    var now := Stamp(previous, clock);
    Row(id, e, link, h(Frame(Parts(id, e, link, now))), now)
  }

  // ---------------------------------------------------------------- what a good chain is

  ghost predicate Sealed(h: Digest, own: seq<Row>) {
    forall k :: 0 <= k < |own| ==> Recomputes(h, own[k])
  }

  /** Each row names the one before it; the first names none. */
  ghost predicate Linked(own: seq<Row>) {
    forall k :: 0 <= k < |own| ==> own[k].previousHash == Link(own, k)
  }

  function Link(own: seq<Row>, k: nat): Option<string>
    requires k <= |own|
  {
    if k == 0 then None else Some(own[k - 1].eventHash)
  }

  ghost predicate Readable(own: seq<Row>) {
    forall k :: 0 <= k < |own| ==> Parse(own[k].createdAt).Some?
  }

  /** Each stamp is later than the ones before. */
  ghost predicate Ascending(own: seq<Row>) {
    forall j, k :: 0 <= j < k < |own| ==> Less(own[j].createdAt, own[k].createdAt)
  }

  /** Rows of one project in append order: sealed, linked one to the next from a null root, ever later. */
  ghost predicate WellChained(h: Digest, own: seq<Row>) {
    Sealed(h, own) && Linked(own) && Readable(own) && Ascending(own)
  }

  ghost predicate DistinctIds(rows: seq<Row>) {
    forall i, j :: 0 <= i < j < |rows| ==> rows[i].id != rows[j].id
  }

  ghost predicate DistinctHashes(rows: seq<Row>) {
    forall i, j :: 0 <= i < j < |rows| ==> rows[i].eventHash != rows[j].eventHash
  }

  predicate HasHash(rows: seq<Row>, hash: string) {
    exists i :: 0 <= i < |rows| && rows[i].eventHash == hash
  }

  /** A row the walk may start from: the project-scoped check also admits a dangling link. */
  predicate IsRoot(rows: seq<Row>, row: Row, scoped: bool) {
    row.previousHash.None? || (scoped && !HasHash(rows, row.previousHash.value))
  }

  /** `order` lists row positions along the links, starting at a root. */
  ghost predicate IsPath(rows: seq<Row>, order: seq<nat>, scoped: bool) {
    && (forall k :: 0 <= k < |order| ==> order[k] < |rows|)
    && (forall j, k :: 0 <= j < k < |order| ==> order[j] != order[k])
    && (order != [] ==> IsRoot(rows, rows[order[0]], scoped))
    && (forall k :: 0 < k < |order| ==> rows[order[k]].previousHash == Some(rows[order[k - 1]].eventHash))
  }

  /** Every stored hash recomputes, the hashes are distinct, and all rows lie on one path. */
  ghost predicate Chained(h: Digest, rows: seq<Row>, scoped: bool) {
    && (forall i :: 0 <= i < |rows| ==> Recomputes(h, rows[i]))
    && DistinctHashes(rows)
    && exists order :: CompletePath(rows, order, scoped)
  }

  // ---------------------------------------------------------------- the checker

  datatype Issue =
    | HashMismatch(id: string)
    | DuplicateHash(id: string)
    | InvalidRootCount(count: nat)
    | CycleDetected(id: string)
    | ForkDetected(id: string, children: nat)
    | DisconnectedChain(visited: nat)

  /** The issues of the first pass, in row order. */
  function HashIssues(h: Digest, rows: seq<Row>): seq<Issue> {
    if rows == [] then []
    else
      var rest := rows[..|rows| - 1];
      var row := rows[|rows| - 1];
      HashIssues(h, rest)
      + (if Recomputes(h, row) then [] else [HashMismatch(row.id)])
      + (if HasHash(rest, row.eventHash) then [DuplicateHash(row.id)] else [])
  }

  lemma {:induction false} HashIssuesEmpty(h: Digest, rows: seq<Row>)
    ensures HashIssues(h, rows) == [] <==>
            (forall i :: 0 <= i < |rows| ==> Recomputes(h, rows[i])) && DistinctHashes(rows)
  {
    hide Recomputes;
    if rows != [] {
      var rest := rows[..|rows| - 1];
      HashIssuesEmpty(h, rest);
      assert rows == rest + [rows[|rows| - 1]];
    }
  }

  lemma {:induction false} FirstPassKinds(h: Digest, rows: seq<Row>)
    ensures forall issue :: issue in HashIssues(h, rows) ==> issue.HashMismatch? || issue.DuplicateHash?
  {
    if rows != [] {
      FirstPassKinds(h, rows[..|rows| - 1]);
    }
  }

  /** Positions below `n` whose link is `key`, in order. */
  function Children(rows: seq<Row>, n: nat, key: Option<string>): (at: seq<nat>)
    requires n <= |rows|
    ensures forall k :: 0 <= k < |at| ==> at[k] < n && rows[at[k]].previousHash == key
    ensures forall i :: 0 <= i < n && rows[i].previousHash == key ==> i in at
    ensures forall j, k :: 0 <= j < k < |at| ==> at[j] < at[k]
  {
    if n == 0 then []
    else if rows[n - 1].previousHash == key then Children(rows, n - 1, key) + [n - 1]
    else Children(rows, n - 1, key)
  }

  /** Positions below `n` of rows a scoped walk may start from, in order. */
  function ScopedRoots(rows: seq<Row>, n: nat): (at: seq<nat>)
    requires n <= |rows|
    ensures forall k :: 0 <= k < |at| ==> at[k] < n && IsRoot(rows, rows[at[k]], true)
    ensures forall i :: 0 <= i < n && IsRoot(rows, rows[i], true) ==> i in at
    ensures forall j, k :: 0 <= j < k < |at| ==> at[j] < at[k]
  {
    if n == 0 then []
    else if IsRoot(rows, rows[n - 1], true) then ScopedRoots(rows, n - 1) + [n - 1]
    else ScopedRoots(rows, n - 1)
  }

  function Roots(rows: seq<Row>, scoped: bool): seq<nat> {
    if scoped then ScopedRoots(rows, |rows|) else Children(rows, |rows|, None)
  }

  lemma LinkedIsNoRoot(rows: seq<Row>, scoped: bool, order: seq<nat>, k: nat)
    requires k < |order| && IsPath(rows, order, scoped)
    ensures IsRoot(rows, rows[order[k]], scoped) <==> k == 0
  {
    if k > 0 {
      assert rows[order[k - 1]].eventHash == rows[order[k]].previousHash.value;
    }
  }

  lemma ChainedRoot(rows: seq<Row>, scoped: bool, order: seq<nat>)
    requires DistinctHashes(rows) && rows != []
    requires |order| == |rows| && IsPath(rows, order, scoped)
    ensures Roots(rows, scoped) == [order[0]]
  {
    Covers(order, |rows|);
    var at := Roots(rows, scoped);
    forall c | 0 <= c < |at| ensures at[c] == order[0] {
      assert at[c] in order;
      var k :| 0 <= k < |order| && order[k] == at[c];
      LinkedIsNoRoot(rows, scoped, order, k);
    }
    OnlyElement(at, order[0]);
  }

  lemma ChainedChildren(rows: seq<Row>, scoped: bool, order: seq<nat>, k: nat)
    requires DistinctHashes(rows) && k < |rows|
    requires |order| == |rows| && IsPath(rows, order, scoped)
    ensures Children(rows, |rows|, Some(rows[order[k]].eventHash)) == if k + 1 < |order| then [order[k + 1]] else []
  {
    Covers(order, |rows|);
    var hash := rows[order[k]].eventHash;
    var at := Children(rows, |rows|, Some(hash));
    assert HasHash(rows, hash);
    forall c | 0 <= c < |at| ensures k + 1 < |order| && at[c] == order[k + 1] {
      assert at[c] in order;
      var j :| 0 <= j < |order| && order[j] == at[c];
      assert j > 0;
      assert rows[order[j - 1]].eventHash == hash;
      assert order[j - 1] == order[k];
    }
    if at != [] {
      var child := at[0];
    }
    if k + 1 < |order| {
      assert rows[order[k + 1]].previousHash == Some(hash);
      assert order[k + 1] in at;
      OnlyElement(at, order[k + 1]);
    }
  }

  /** A walk along distinct hashes never comes back to a row it has seen. */
  lemma NoCycle(rows: seq<Row>, scoped: bool, path: seq<nat>, next: nat)
    requires IsPath(rows, path, scoped) && path != [] && next < |rows|
    requires rows[next].previousHash == Some(rows[path[|path| - 1]].eventHash)
    requires DistinctHashes(rows)
    ensures forall j :: 0 <= j < |path| ==> rows[path[j]].eventHash != rows[next].eventHash
  {
    var last := path[|path| - 1];
    assert HasHash(rows, rows[last].eventHash);
    forall j | 0 <= j < |path| ensures path[j] != next {
      if j > 0 {
        assert path[j - 1] != last;
        assert rows[path[j - 1]].eventHash != rows[last].eventHash;
      }
    }
  }

  lemma PathShort(rows: seq<Row>, path: seq<nat>, scoped: bool)
    requires IsPath(rows, path, scoped)
    ensures |path| <= |rows|
  {
    DistinctCount(path);
    SubsetSize(Elements(path), Upto(|rows|));
  }

  ghost predicate CompletePath(rows: seq<Row>, order: seq<nat>, scoped: bool) {
    |order| == |rows| && IsPath(rows, order, scoped)
  }

  /** `children_by_prev.get(key, [])`. */
  function Lookup(children: map<Option<string>, seq<nat>>, key: Option<string>): seq<nat> {
    if key in children then children[key] else []
  }

  ghost predicate Indexed(rows: seq<Row>, n: nat, children: map<Option<string>, seq<nat>>)
    requires n <= |rows|
  {
    forall key :: Lookup(children, key) == Children(rows, n, key)
  }

  lemma IndexedStep(rows: seq<Row>, n: nat, children: map<Option<string>, seq<nat>>)
    requires n < |rows| && Indexed(rows, n, children)
    ensures Indexed(rows, n + 1, children[rows[n].previousHash := Lookup(children, rows[n].previousHash) + [n]])
  {
    var link := rows[n].previousHash;
    var next := children[link := Lookup(children, link) + [n]];
    forall key ensures Lookup(next, key) == Children(rows, n + 1, key) {
      assert Lookup(children, key) == Children(rows, n, key);
    }
  }

  predicate OnPath(rows: seq<Row>, path: seq<nat>, hash: string)
    requires forall k :: 0 <= k < |path| ==> path[k] < |rows|
  {
    exists k :: 0 <= k < |path| && rows[path[k]].eventHash == hash
  }

  lemma {:induction false} FirstPassStep(h: Digest, rows: seq<Row>, i: nat)
    requires i < |rows|
    ensures HashIssues(h, rows[..i + 1]) == HashIssues(h, rows[..i])
              + (if Recomputes(h, rows[i]) then [] else [HashMismatch(rows[i].id)])
              + (if HasHash(rows[..i], rows[i].eventHash) then [DuplicateHash(rows[i].id)] else [])
    ensures forall hash :: HasHash(rows[..i + 1], hash) <==> HasHash(rows[..i], hash) || hash == rows[i].eventHash
  {
    var now := rows[..i + 1];
    assert now[..i] == rows[..i] && now[i] == rows[i];
    forall hash ensures HasHash(now, hash) <==> HasHash(rows[..i], hash) || hash == rows[i].eventHash {
      if HasHash(rows[..i], hash) {
        var k :| 0 <= k < i && rows[..i][k].eventHash == hash;
        assert now[k].eventHash == hash;
      }
      if hash == rows[i].eventHash {
        assert now[i].eventHash == hash;
      }
      if HasHash(now, hash) && hash != rows[i].eventHash {
        var k :| 0 <= k < |now| && now[k].eventHash == hash;
        assert rows[..i][k].eventHash == hash;
      }
    }
  }

  lemma FirstPassStart(h: Digest, rows: seq<Row>)
    ensures rows[..0] == [] && HashIssues(h, []) == [] && Indexed(rows, 0, map[])
    ensures forall hash :: !HasHash([], hash)
  {
  }

  /** The first pass: recompute every hash, and index the rows by hash and by link. */
  method IndexRows(h: Digest, rows: seq<Row>)
    returns (issues: seq<Issue>, byHash: set<string>, children: map<Option<string>, seq<nat>>)
    ensures issues == HashIssues(h, rows)
    ensures forall hash :: hash in byHash <==> HasHash(rows, hash)
    ensures Indexed(rows, |rows|, children)
  {
    FirstPassStart(h, rows);
    hide HashIssues, HasHash, Indexed, Lookup, Recomputes;
    issues, byHash, children := [], {}, map[];
    for i := 0 to |rows|
      invariant issues == HashIssues(h, rows[..i])
      invariant forall hash :: hash in byHash <==> HasHash(rows[..i], hash)
      invariant Indexed(rows, i, children)
    {
      var row := rows[i];
      FirstPassStep(h, rows, i);
      if !Recomputes(h, row) {
        issues := issues + [HashMismatch(row.id)];
      }
      if row.eventHash in byHash {
        issues := issues + [DuplicateHash(row.id)];
      }
      byHash := byHash + {row.eventHash};
      IndexedStep(rows, i, children);
      children := children[row.previousHash := Lookup(children, row.previousHash) + [i]];
    }
    assert rows[..|rows|] == rows;
  }

  method FindRoots(rows: seq<Row>, scoped: bool, byHash: set<string>, children: map<Option<string>, seq<nat>>)
    returns (roots: seq<nat>)
    requires forall hash :: hash in byHash <==> HasHash(rows, hash)
    requires Indexed(rows, |rows|, children)
    ensures roots == Roots(rows, scoped)
  {
    if !scoped {
      return Lookup(children, None);
    }
    roots := [];
    for i := 0 to |rows|
      invariant roots == ScopedRoots(rows, i)
    {
      if rows[i].previousHash.None? || rows[i].previousHash.value !in byHash {
        roots := roots + [i];
      }
    }
  }

  /** The visited hashes are those on the path, each met once. */
  ghost predicate Seen(rows: seq<Row>, path: seq<nat>, visited: set<string>)
    requires forall k :: 0 <= k < |path| ==> path[k] < |rows|
  {
    |visited| == |path| && forall hash :: hash in visited <==> OnPath(rows, path, hash)
  }

  /** The walk has visited the first rows of `order`, and the next one is in hand. */
  ghost predicate OnOrder(order: seq<nat>, path: seq<nat>, current: Option<nat>) {
    path <= order && current == (if |path| < |order| then Some(order[|path|]) else None)
  }

  /** A complete path from `start`, which only tables without repeated hashes have. */
  ghost predicate Leads(rows: seq<Row>, scoped: bool, start: nat, order: seq<nat>) {
    DistinctHashes(rows) && CompletePath(rows, order, scoped) && order != [] && order[0] == start
  }

  /** A walk that has a complete path to follow is on it. */
  ghost predicate Follows(rows: seq<Row>, scoped: bool, start: nat, path: seq<nat>, current: Option<nat>) {
    forall order :: Leads(rows, scoped, start, order) ==> OnOrder(order, path, current)
  }

  ghost predicate Continues(rows: seq<Row>, scoped: bool, path: seq<nat>, at: nat)
    requires at < |rows| && forall k :: 0 <= k < |path| ==> path[k] < |rows|
  {
    if path == [] then IsRoot(rows, rows[at], scoped)
    else rows[at].previousHash == Some(rows[path[|path| - 1]].eventHash)
  }

  lemma PathStep(rows: seq<Row>, scoped: bool, path: seq<nat>, at: nat, visited: set<string>)
    requires at < |rows| && IsPath(rows, path, scoped) && Seen(rows, path, visited) && Continues(rows, scoped, path, at)
    requires rows[at].eventHash !in visited
    ensures IsPath(rows, path + [at], scoped)
  {
    forall k | 0 <= k < |path| ensures path[k] != at {
      assert OnPath(rows, path, rows[path[k]].eventHash);
    }
  }

  lemma SeenStep(rows: seq<Row>, path: seq<nat>, at: nat, visited: set<string>)
    requires at < |rows| && (forall k :: 0 <= k < |path| ==> path[k] < |rows|) && Seen(rows, path, visited)
    requires rows[at].eventHash !in visited
    ensures Seen(rows, path + [at], visited + {rows[at].eventHash})
  {
    var next := path + [at];
    forall hash ensures OnPath(rows, next, hash) <==> OnPath(rows, path, hash) || hash == rows[at].eventHash {
      if OnPath(rows, path, hash) {
        var k :| 0 <= k < |path| && rows[path[k]].eventHash == hash;
        assert rows[next[k]].eventHash == hash;
      }
      if hash == rows[at].eventHash {
        assert rows[next[|path|]].eventHash == hash;
      }
      if OnPath(rows, next, hash) && hash != rows[at].eventHash {
        var k :| 0 <= k < |next| && rows[next[k]].eventHash == hash;
        assert rows[path[k]].eventHash == hash;
      }
    }
  }

  lemma CycleMeansDuplicate(rows: seq<Row>, scoped: bool, path: seq<nat>, at: nat)
    requires at < |rows| && IsPath(rows, path, scoped) && Continues(rows, scoped, path, at)
    requires OnPath(rows, path, rows[at].eventHash)
    ensures !DistinctHashes(rows)
  {
    if DistinctHashes(rows) {
      NoCycle(rows, scoped, path, at);
    }
  }

  lemma NextOnOrder(rows: seq<Row>, scoped: bool, order: seq<nat>, path: seq<nat>, at: nat, next: seq<nat>)
    requires DistinctHashes(rows) && CompletePath(rows, order, scoped) && at < |rows|
    requires OnOrder(order, path, Some(at)) && next == Children(rows, |rows|, Some(rows[at].eventHash))
    ensures |next| <= 1 && OnOrder(order, path + [at], if next == [] then None else Some(next[0]))
  {
    hide IsPath, DistinctHashes, Children;
    ChainedChildren(rows, scoped, order, |path|);
  }

  /** One step of the walk keeps to the complete path, if there is one; at a fork there is none. */
  lemma StaysOnOrder(rows: seq<Row>, scoped: bool, start: nat, path: seq<nat>, at: nat, next: seq<nat>)
    requires at < |rows| && Follows(rows, scoped, start, path, Some(at))
    requires next == Children(rows, |rows|, Some(rows[at].eventHash))
    ensures |next| <= 1 ==> Follows(rows, scoped, start, path + [at], if next == [] then None else Some(next[0]))
    ensures |next| > 1 ==> Strays(rows, scoped, start)
  {
    hide CompletePath, DistinctHashes, Children, OnOrder;
    forall order | Leads(rows, scoped, start, order)
      ensures |next| <= 1 && OnOrder(order, path + [at], if next == [] then None else Some(next[0]))
    {
      NextOnOrder(rows, scoped, order, path, at, next);
    }
  }

  /** There is no complete path to follow. */
  ghost predicate Strays(rows: seq<Row>, scoped: bool, start: nat) {
    forall order :: CompletePath(rows, order, scoped) ==> !Leads(rows, scoped, start, order)
  }

  /** A walk that came to its end has taken the complete path, if there is one. */
  lemma LeadsWhere(rows: seq<Row>, scoped: bool, start: nat, path: seq<nat>)
    ensures Follows(rows, scoped, start, path, None) ==>
              forall order :: CompletePath(rows, order, scoped) && Leads(rows, scoped, start, order) ==> order == path
  {
    if Follows(rows, scoped, start, path, None) {
      forall order | CompletePath(rows, order, scoped) && Leads(rows, scoped, start, order) ensures order == path {
        assert OnOrder(order, path, None);
      }
    }
  }

  /** The second pass: follow the links from the only root until they stop, fork or repeat. */
  method Walk(rows: seq<Row>, scoped: bool, start: nat, children: map<Option<string>, seq<nat>>)
    returns (issues: seq<Issue>, count: nat, ghost path: seq<nat>)
    requires start < |rows| && IsRoot(rows, rows[start], scoped)
    requires Indexed(rows, |rows|, children)
    ensures IsPath(rows, path, scoped) && count == |path|
    ensures Strays(rows, scoped, start) || (issues == [] && Follows(rows, scoped, start, path, None))
    ensures forall issue :: issue in issues ==> issue.CycleDetected? || issue.ForkDetected?
    ensures forall issue :: issue in issues && issue.CycleDetected? ==> !DistinctHashes(rows)
  {
    issues := [];
    var visited: set<string> := {};
    var current: Option<nat> := Some(start);
    path := [];
    while current.Some?
      invariant IsPath(rows, path, scoped)
      invariant Seen(rows, path, visited)
      invariant current.Some? ==> current.value < |rows|
      invariant current.Some? ==> Continues(rows, scoped, path, current.value)
      invariant Follows(rows, scoped, start, path, current)
      invariant issues == []
      decreases current.Some?, |rows| - |path|
    {
      var at := current.value;
      var hash := rows[at].eventHash;
      if hash in visited {
        CycleMeansDuplicate(rows, scoped, path, at);
        issues := [CycleDetected(rows[at].id)];
        break;
      }
      PathStep(rows, scoped, path, at, visited);
      SeenStep(rows, path, at, visited);
      var next := Lookup(children, Some(hash));
      StaysOnOrder(rows, scoped, start, path, at, next);
      visited := visited + {hash};
      path := path + [at];
      PathShort(rows, path, scoped);
      if |next| > 1 {
        issues := [ForkDetected(rows[at].id, |next|)];
        break;
      }
      current := if next != [] then Some(next[0]) else None;
    }
    count := |visited|;
  }

  /**
   * `verify_chain` on the selected rows. It accepts exactly the chained tables,
   * and it can only speak of a cycle when two rows share a hash.
   */
  method CheckRows(h: Digest, rows: seq<Row>, scoped: bool) returns (ok: bool, issues: seq<Issue>)
    ensures ok <==> issues == []
    ensures ok <==> Chained(h, rows, scoped)
    ensures HashIssues(h, rows) <= issues
    ensures forall issue :: issue in issues && issue.CycleDetected? ==> !DistinctHashes(rows)
  {
    if rows == [] {
      assert CompletePath(rows, [], scoped);
      return true, [];
    }
    var byHash, children;
    issues, byHash, children := IndexRows(h, rows);
    FirstPassKinds(h, rows);
    var roots := FindRoots(rows, scoped, byHash, children);
    var structure := CheckStructure(rows, scoped, roots, children);
    HashIssuesEmpty(h, rows);
    issues := issues + structure;
    ok := issues == [];
  }

  method CheckStructure(rows: seq<Row>, scoped: bool, roots: seq<nat>, children: map<Option<string>, seq<nat>>)
    returns (issues: seq<Issue>)
    requires rows != [] && roots == Roots(rows, scoped) && Indexed(rows, |rows|, children)
    ensures DistinctHashes(rows) ==> (issues == [] <==> exists order :: CompletePath(rows, order, scoped))
    ensures forall issue :: issue in issues && issue.CycleDetected? ==> !DistinctHashes(rows)
  {
    forall order | DistinctHashes(rows) && CompletePath(rows, order, scoped)
      ensures order != [] && roots == [order[0]] && Leads(rows, scoped, order[0], order)
    {
      ChainedRoot(rows, scoped, order);
    }
    hide DistinctHashes, IsPath, Leads, Follows;
    if |roots| != 1 {
      return [InvalidRootCount(|roots|)];
    }
    var count;
    ghost var path;
    issues, count, path := Walk(rows, scoped, roots[0], children);
    LeadsWhere(rows, scoped, roots[0], path);
    if count != |rows| {
      issues := issues + [DisconnectedChain(count)];
    } else {
      assert CompletePath(rows, path, scoped);
    }
  }
}
