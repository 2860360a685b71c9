/**
 * What appending guarantees: the newest row is the last appended one, the chain
 * stays linear, and the checker accepts it; and what altering a stored row does.
 */
module LedgerAppend {
  import opened Options
  import opened Text
  import opened Timestamps
  import opened LedgerFraming
  import opened Counting
  import opened Ledger

  ghost predicate CleanIds(rows: seq<Row>) {
    forall i :: 0 <= i < |rows| ==> Clean(rows[i].id)
  }

  /** What every run of `append` maintains. */
  ghost predicate Sound(h: Digest, rows: seq<Row>) {
    && DistinctIds(rows) && CleanIds(rows)
    && forall p :: WellChained(h, Own(rows, p))
  }

  ghost predicate HasId(rows: seq<Row>, id: string) {
    exists i :: 0 <= i < |rows| && rows[i].id == id
  }

  /** Does the newest row of the project carry `datetime.max`, which no later stamp can follow? */
  predicate Exhausted(own: seq<Row>) {
    var newest := Newest(own);
    newest.Some? && Parse(newest.value.createdAt) == Some(LATEST)
  }

  // ---------------------------------------------------------------- the newest-row query

  /** `Newest` is the answer of the query: a row of the table that no row is newer than. */
  lemma {:induction false} NewestIsMaximal(rows: seq<Row>)
    ensures Newest(rows).None? <==> rows == []
    ensures Newest(rows).Some? ==> Newest(rows).value in rows && forall r :: r in rows ==> !Newer(r, Newest(rows).value)
  {
    if rows != [] {
      var init, last := rows[..|rows| - 1], rows[|rows| - 1];
      NewestIsMaximal(init);
      assert rows == init + [last];
      LessIrreflexive(last.createdAt);
      LessIrreflexive(last.id);
      if init != [] {
        var best := Newest(init).value;
        forall r | r in rows ensures !Newer(r, Newest(rows).value) {
          if Newer(last, best) && r != last && Newer(r, last) {
            NewerTransitive(r, last, best);
          }
        }
      }
    }
  }

  lemma NewerTransitive(a: Row, b: Row, c: Row)
    requires Newer(a, b) && Newer(b, c)
    ensures Newer(a, c)
  {
    if Less(b.createdAt, a.createdAt) && Less(c.createdAt, b.createdAt) {
      LessTransitive(c.createdAt, b.createdAt, a.createdAt);
    }
    if Less(b.id, a.id) && Less(c.id, b.id) {
      LessTransitive(c.id, b.id, a.id);
    }
  }

  /** In a chain the newest-row query returns the row appended last. */
  lemma {:induction false} NewestIsLast(own: seq<Row>)
    requires Ascending(own) && own != []
    ensures Newest(own) == Some(own[|own| - 1])
  {
    var init := own[..|own| - 1];
    if init != [] {
      NewestIsLast(init);
      assert Less(own[|own| - 2].createdAt, own[|own| - 1].createdAt);
    }
  }

  // ---------------------------------------------------------------- one append

  lemma OwnAppend(rows: seq<Row>, row: Row, p: string)
    ensures Own(rows + [row], p) == Own(rows, p) + (if row.event.projectId == p then [row] else [])
  {
    assert (rows + [row])[..|rows|] == rows;
  }

  /** A new stamp is later than the previous row's, whatever the clock says, unless that is `datetime.max`. */
  lemma StampAdvances(previous: Row, clock: DateTime)
    requires Valid(clock) && Parse(previous.createdAt).Some?
    ensures Parse(Stamp(Some(previous), clock)).Some?
    ensures Less(previous.createdAt, Stamp(Some(previous), clock)) <==> Parse(previous.createdAt).value != LATEST
  {
    var before := Parse(previous.createdAt).value;
    TickIsNext(before, clock);
    ParsePrint(clock);
    PrintOrder(before, clock);
    if Tick(before).Some? {
      ParsePrint(Tick(before).value);
      PrintOrder(before, Tick(before).value);
    } else {
      LatestIsLast(clock);
    }
  }

  lemma LatestIsLast(d: DateTime)
    requires Valid(d)
    ensures !Before(LATEST, d)
  {
  }

  lemma AscendingAppend(own: seq<Row>, row: Row)
    requires Ascending(own)
    ensures Ascending(own + [row]) <==> own == [] || Less(own[|own| - 1].createdAt, row.createdAt)
  {
    var next := own + [row];
    if own != [] {
      var last := own[|own| - 1];
      assert next[|own| - 1] == last && next[|own|] == row;
      forall j | 0 <= j < |own| && Less(last.createdAt, row.createdAt) ensures Less(next[j].createdAt, row.createdAt) {
        if j < |own| - 1 {
          LessTransitive(own[j].createdAt, last.createdAt, row.createdAt);
        }
      }
    }
  }

  lemma LinkedAppend(own: seq<Row>, row: Row)
    requires Linked(own)
    ensures Linked(own + [row]) <==> row.previousHash == Link(own, |own|)
  {
    var next := own + [row];
    assert next[|own|] == row && Link(next, |own|) == Link(own, |own|);
    forall k | 0 <= k < |own| ensures next[k].previousHash == Link(next, k) {
      assert next[k] == own[k] && Link(next, k) == Link(own, k);
    }
  }

  /** Appending after the newest row extends the chain, except after `datetime.max`. */
  lemma SealExtends(h: Digest, own: seq<Row>, id: string, e: Event, clock: DateTime)
    requires WellChained(h, own) && Valid(clock)
    ensures WellChained(h, own + [Seal(h, id, e, Newest(own), clock)]) <==> !Exhausted(own)
  {
    var row := Seal(h, id, e, Newest(own), clock);
    ParsePrint(clock);
    if own != [] {
      NewestIsLast(own);
      StampAdvances(own[|own| - 1], clock);
    }
    WellChainedAppend(h, own, row);
  }

  lemma WellChainedAppend(h: Digest, own: seq<Row>, row: Row)
    requires WellChained(h, own) && Recomputes(h, row) && Parse(row.createdAt).Some?
    requires row.previousHash == Link(own, |own|)
    ensures WellChained(h, own + [row]) <==> own == [] || Less(own[|own| - 1].createdAt, row.createdAt)
  {
    AscendingAppend(own, row);
    LinkedAppend(own, row);
    assert Sealed(h, own + [row]);
    ReadableAppend(own, row);
  }

  lemma ReadableAppend(own: seq<Row>, row: Row)
    requires Readable(own) && Parse(row.createdAt).Some?
    ensures Readable(own + [row])
  {
  }

  /** One `append` on a sound table leaves a sound table, exactly when the project's newest stamp is not the maximum. */
  lemma AppendSound(h: Digest, rows: seq<Row>, id: string, e: Event, clock: DateTime)
    requires Sound(h, rows) && Valid(clock) && Clean(id) && !HasId(rows, id)
    ensures Sound(h, rows + [Seal(h, id, e, Newest(Own(rows, e.projectId)), clock)]) <==>
            !Exhausted(Own(rows, e.projectId))
  {
    var own := Own(rows, e.projectId);
    var row := Seal(h, id, e, Newest(own), clock);
    var next := rows + [row];
    assert WellChained(h, own);
    SealExtends(h, own, id, e, clock);
    OwnAppend(rows, row, e.projectId);
    if !Exhausted(own) {
      OtherProjects(h, rows, row);
    }
    DistinctAppend(rows, row);
  }

  lemma OtherProjects(h: Digest, rows: seq<Row>, row: Row)
    requires forall p :: WellChained(h, Own(rows, p))
    requires WellChained(h, Own(rows + [row], row.event.projectId))
    ensures forall p :: WellChained(h, Own(rows + [row], p))
  {
    forall p ensures WellChained(h, Own(rows + [row], p)) {
      OwnAppend(rows, row, p);
      assert WellChained(h, Own(rows, p));
    }
  }

  lemma DistinctAppend(rows: seq<Row>, row: Row)
    requires DistinctIds(rows) && CleanIds(rows) && Clean(row.id) && !HasId(rows, row.id)
    ensures DistinctIds(rows + [row]) && CleanIds(rows + [row])
  {
  }

  // ---------------------------------------------------------------- up to datetime.max

  /** No row carries `datetime.max`. */
  predicate NoLatest(rows: seq<Row>) {
    forall r :: r in rows ==> Parse(r.createdAt) != Some(LATEST)
  }

  function Init(own: seq<Row>): seq<Row> {
    if own == [] then [] else own[..|own| - 1]
  }

  /** A chain, as long as no row was appended after one stamped `datetime.max`. */
  ghost predicate ChainOk(h: Digest, own: seq<Row>) {
    NoLatest(Init(own)) ==> WellChained(h, own)
  }

  /** In a chain only the last row can carry `datetime.max`. */
  lemma ChainHasNoLatest(h: Digest, own: seq<Row>)
    requires WellChained(h, own)
    ensures NoLatest(Init(own))
  {
    forall r | r in Init(own) ensures Parse(r.createdAt) != Some(LATEST) {
      var k :| 0 <= k < |own| - 1 && own[k] == r;
      BelowIsNotLatest(r, own[|own| - 1]);
    }
  }

  lemma BelowIsNotLatest(r: Row, last: Row)
    requires Less(r.createdAt, last.createdAt) && Parse(last.createdAt).Some?
    ensures Parse(r.createdAt) != Some(LATEST)
  {
    hide Less, Print, Before;
    if Parse(r.createdAt) == Some(LATEST) {
      PrintOrder(LATEST, Parse(last.createdAt).value);
      LatestIsLast(Parse(last.createdAt).value);
    }
  }

  lemma ChainOkAppend(h: Digest, own: seq<Row>, id: string, e: Event, clock: DateTime)
    requires ChainOk(h, own) && Valid(clock)
    ensures ChainOk(h, own + [Seal(h, id, e, Newest(own), clock)])
  {
    var next := own + [Seal(h, id, e, Newest(own), clock)];
    assert Init(next) == own;
    if NoLatest(own) {
      assert forall r :: r in Init(own) ==> r in own;
      NewestIsMaximal(own);
      SealExtends(h, own, id, e, clock);
    }
  }

  /** What every run of `append` keeps, whatever the stamps. */
  ghost predicate NearlySound(h: Digest, rows: seq<Row>) {
    && DistinctIds(rows) && CleanIds(rows)
    && forall p :: ChainOk(h, Own(rows, p))
  }

  lemma SoundIsNearly(h: Digest, rows: seq<Row>)
    requires Sound(h, rows)
    ensures NearlySound(h, rows)
  {
    forall p ensures ChainOk(h, Own(rows, p)) {
      assert WellChained(h, Own(rows, p));
    }
  }

  lemma AppendNearlySound(h: Digest, rows: seq<Row>, id: string, e: Event, clock: DateTime)
    requires NearlySound(h, rows) && Valid(clock) && Clean(id) && !HasId(rows, id)
    ensures NearlySound(h, rows + [Seal(h, id, e, Newest(Own(rows, e.projectId)), clock)])
  {
    hide ChainOk;
    var row := Seal(h, id, e, Newest(Own(rows, e.projectId)), clock);
    forall p ensures ChainOk(h, Own(rows + [row], p)) {
      assert ChainOk(h, Own(rows, p));
      OwnAppend(rows, row, p);
      if p == e.projectId {
        ChainOkAppend(h, Own(rows, p), id, e, clock);
      } else {
        assert Own(rows, p) + [] == Own(rows, p);
      }
    }
    DistinctAppend(rows, row);
  }

  /** The instant `n` microseconds later, if a `datetime` can hold it. */
  function Later(d: DateTime, n: nat): Option<DateTime>
    decreases n
  {
    if n == 0 then Some(d)
    else match Tick(d)
      case None => None
      case Some(next) => Later(next, n - 1)
  }

  /** Every stamp can be read and is no later than `limit`. */
  predicate Within(rows: seq<Row>, limit: DateTime) {
    forall r :: r in rows ==> Parse(r.createdAt).Some? && !Before(limit, Parse(r.createdAt).value)
  }

  lemma TickMonotone(a: DateTime, b: DateTime)
    requires Valid(a) && Valid(b) && !Before(b, a) && Tick(b).Some?
    ensures Tick(a).Some? && !Before(Tick(b).value, Tick(a).value)
  {
    TickIsNext(a, b);
    TickIsNext(b, a);
  }

  /** A stamp runs at most one microsecond ahead of the clock and of the previous row. */
  lemma StampWithin(previous: Option<Row>, clock: DateTime, limit: DateTime)
    requires Valid(clock) && Valid(limit) && !Before(limit, clock) && Tick(limit).Some?
    requires previous.Some? ==> Within([previous.value], limit)
    ensures var stamp := Stamp(previous, clock);
            Parse(stamp).Some? && !Before(Tick(limit).value, Parse(stamp).value)
  {
    hide Print, Parse;
    ParsePrint(clock);
    TickIsNext(limit, clock);
    if previous.Some? {
      assert previous.value in [previous.value];
      var before := Parse(previous.value.createdAt).value;
      TickMonotone(before, limit);
      TickIsNext(before, clock);
      ParsePrint(Tick(before).value);
    }
  }

  /** So after one more append every stamp is within one more microsecond. */
  lemma SealWithin(h: Digest, rows: seq<Row>, id: string, e: Event, clock: DateTime, limit: DateTime)
    requires Within(rows, limit) && Valid(clock) && Valid(limit) && !Before(limit, clock) && Tick(limit).Some?
    ensures Within(rows + [Seal(h, id, e, Newest(Own(rows, e.projectId)), clock)], Tick(limit).value)
    ensures Valid(Tick(limit).value) && !Before(Tick(limit).value, clock)
  {
    hide Stamp, Parse, Before, Tick, Valid;
    var own := Own(rows, e.projectId);
    OwnElements(rows, e.projectId);
    NewestIsMaximal(own);
    StampWithin(Newest(own), clock, limit);
    WithinTick(rows, limit);
    ClockWithinTick(clock, limit);
  }

  lemma ClockWithinTick(clock: DateTime, limit: DateTime)
    requires Valid(clock) && Valid(limit) && !Before(limit, clock) && Tick(limit).Some?
    ensures Valid(Tick(limit).value) && !Before(Tick(limit).value, clock)
  {
    TickIsNext(limit, clock);
  }

  lemma WithinTick(rows: seq<Row>, limit: DateTime)
    requires Within(rows, limit) && Valid(limit) && Tick(limit).Some?
    ensures Within(rows, Tick(limit).value)
  {
    hide Parse, Before, Tick, Valid;
    forall r | r in rows ensures Parse(r.createdAt).Some? && !Before(Tick(limit).value, Parse(r.createdAt).value) {
      ClockWithinTick(Parse(r.createdAt).value, limit);
    }
  }

  lemma WithinNoLatest(rows: seq<Row>, limit: DateTime)
    requires Within(rows, limit) && Valid(limit) && limit != LATEST
    ensures NoLatest(rows)
  {
    forall r | r in rows ensures Parse(r.createdAt) != Some(LATEST) {
      TickIsNext(limit, limit);
      LatestIsLast(Tick(limit).value);
    }
  }

  // ---------------------------------------------------------------- the checker accepts

  /** Rows with different clean ids hash differently. */
  lemma IdsSeparateHashes(h: Digest, a: Row, b: Row)
    requires CollisionFree(h) && Recomputes(h, a) && Recomputes(h, b)
    requires Clean(a.id) && Clean(b.id) && a.eventHash == b.eventHash
    ensures a.id == b.id
  {
    var x, y := Covered(a), Covered(b);
    assert Frame(x) == Frame(y);
    FirstField(x[0], y[0], Frame(x[1..]), Frame(y[1..]));
  }

  lemma {:induction false} OwnElements(rows: seq<Row>, p: string)
    ensures forall r :: r in Own(rows, p) <==> r in rows && r.event.projectId == p
  {
    if rows != [] {
      OwnElements(rows[..|rows| - 1], p);
      assert rows == rows[..|rows| - 1] + [rows[|rows| - 1]];
    }
  }

  lemma {:induction false} OwnDistinct(rows: seq<Row>, p: string)
    requires DistinctIds(rows)
    ensures DistinctIds(Own(rows, p))
  {
    if rows != [] {
      var init, last := rows[..|rows| - 1], rows[|rows| - 1];
      OwnDistinct(init, p);
      OwnElements(init, p);
      forall r | r in Own(init, p) ensures r.id != last.id {
        var i :| 0 <= i < |init| && init[i] == r;
        assert rows[i].id != rows[|init|].id;
      }
    }
  }

  /** A project's chain is accepted by the scoped check, and by the unscoped check on its own. */
  lemma WellChainedAccepted(h: Digest, own: seq<Row>, scoped: bool)
    requires CollisionFree(h) && WellChained(h, own) && DistinctIds(own) && CleanIds(own)
    ensures Chained(h, own, scoped)
  {
    forall i, j | 0 <= i < j < |own| ensures own[i].eventHash != own[j].eventHash {
      if own[i].eventHash == own[j].eventHash {
        IdsSeparateHashes(h, own[i], own[j]);
      }
    }
    LinkedIsPath(own, scoped);
  }

  lemma LinkedIsPath(own: seq<Row>, scoped: bool)
    requires Linked(own)
    ensures exists order :: CompletePath(own, order, scoped)
  {
    var order: seq<nat> := seq(|own|, k requires 0 <= k < |own| => k);
    assert forall k :: 0 <= k < |own| ==> order[k] == k;
    forall k | 0 < k < |own| ensures own[order[k]].previousHash == Some(own[order[k - 1]].eventHash) {
      assert own[k].previousHash == Link(own, k);
    }
    if own != [] {
      assert own[0].previousHash == Link(own, 0);
    }
    assert CompletePath(own, order, scoped);
  }

  lemma ProjectAccepted(h: Digest, rows: seq<Row>, p: string)
    requires CollisionFree(h) && DistinctIds(rows) && CleanIds(rows) && WellChained(h, Own(rows, p))
    ensures Chained(h, Own(rows, p), true)
  {
    OwnElements(rows, p);
    OwnDistinct(rows, p);
    assert CleanIds(Own(rows, p)) by {
      forall r | r in Own(rows, p) ensures Clean(r.id) {
        assert r in rows;
      }
    }
    WellChainedAccepted(h, Own(rows, p), true);
  }

  /**
   * Of a nearly sound table, a project's rows are one chain exactly when at most the
   * last of them carries `datetime.max`; the scoped check then accepts them, and no two
   * name the same predecessor.
   */
  lemma NearlySoundChains(h: Digest, rows: seq<Row>, p: string)
    requires CollisionFree(h) && NearlySound(h, rows)
    ensures WellChained(h, Own(rows, p)) <==> NoLatest(Init(Own(rows, p)))
    ensures NoLatest(Init(Own(rows, p))) ==> Chained(h, Own(rows, p), true) && NoFork(Own(rows, p))
  {
    hide Chained, WellChained, NoLatest;
    var own := Own(rows, p);
    assert ChainOk(h, own);
    if WellChained(h, own) {
      ChainHasNoLatest(h, own);
      ProjectAccepted(h, rows, p);
      forall i, j | 0 <= i < j < |own| ensures own[i].previousHash != own[j].previousHash {
        LinksDiffer(h, own, true, i, j);
      }
    }
  }

  ghost predicate NoFork(own: seq<Row>) {
    forall i, j :: 0 <= i < j < |own| ==> own[i].previousHash != own[j].previousHash
  }

  predicate OneProject(rows: seq<Row>) {
    forall i, j :: 0 <= i < j < |rows| ==> rows[i].event.projectId == rows[j].event.projectId
  }

  lemma {:induction false} OwnOfOneProject(rows: seq<Row>, p: string)
    requires forall i :: 0 <= i < |rows| ==> rows[i].event.projectId == p
    ensures Own(rows, p) == rows
  {
    if rows != [] {
      OwnOfOneProject(rows[..|rows| - 1], p);
      assert rows == rows[..|rows| - 1] + [rows[|rows| - 1]];
    }
  }

  /** The first row of a non-empty project has no predecessor. */
  lemma ProjectHasNullRoot(h: Digest, rows: seq<Row>, i: nat) returns (at: nat)
    requires Sound(h, rows) && i < |rows|
    ensures at < |rows| && rows[at].event.projectId == rows[i].event.projectId && rows[at].previousHash.None?
  {
    var p := rows[i].event.projectId;
    OwnElements(rows, p);
    var own := Own(rows, p);
    assert rows[i] in own;
    assert own[0].previousHash.None? by {
      assert WellChained(h, own);
      assert own[0].previousHash == Link(own, 0);
    }
    assert own[0] in own;
    at :| 0 <= at < |rows| && rows[at] == own[0];
  }

  /** The check over the whole table accepts exactly when at most one project has rows. */
  lemma UnscopedNeedsOneProject(h: Digest, rows: seq<Row>)
    requires CollisionFree(h) && Sound(h, rows)
    ensures Chained(h, rows, false) <==> OneProject(rows)
  {
    if OneProject(rows) {
      if rows == [] {
        assert CompletePath(rows, [], false);
      } else {
        OwnOfOneProject(rows, rows[0].event.projectId);
        assert WellChained(h, Own(rows, rows[0].event.projectId));
        WellChainedAccepted(h, rows, false);
      }
    } else {
      var i, j :| 0 <= i < j < |rows| && rows[i].event.projectId != rows[j].event.projectId;
      var a := ProjectHasNullRoot(h, rows, i);
      var b := ProjectHasNullRoot(h, rows, j);
      if Chained(h, rows, false) {
        LinksDiffer(h, rows, false, a, b);
      }
    }
  }

  /** An accepted table has no fork: no two rows share a predecessor, and no two are roots. */
  lemma LinksDiffer(h: Digest, rows: seq<Row>, scoped: bool, a: nat, b: nat)
    requires Chained(h, rows, scoped) && a < |rows| && b < |rows| && a != b
    ensures rows[a].previousHash != rows[b].previousHash
  {
    var order :| CompletePath(rows, order, scoped);
    Covers(order, |rows|);
    assert a in order && b in order;
    var j :| 0 <= j < |order| && order[j] == a;
    var k :| 0 <= k < |order| && order[k] == b;
    LinkedIsNoRoot(rows, scoped, order, j);
    LinkedIsNoRoot(rows, scoped, order, k);
    if j > 0 && k > 0 {
      assert order[j - 1] != order[k - 1];
      assert rows[order[j - 1]].eventHash != rows[order[k - 1]].eventHash;
    }
  }

  /** After a row stamped `datetime.max`, two appends with an ordinary clock fork the chain. */
  lemma ForkAfterLatest(h: Digest, own: seq<Row>, id1: string, id2: string, e1: Event, e2: Event, c1: DateTime,
      c2: DateTime)
    requires WellChained(h, own) && Exhausted(own) && Valid(c1) && Valid(c2) && c1 != LATEST
    ensures var one := own + [Seal(h, id1, e1, Newest(own), c1)];
            var two := one + [Seal(h, id2, e2, Newest(one), c2)];
            !Chained(h, two, true)
  {
    var row1 := Seal(h, id1, e1, Newest(own), c1);
    var one := own + [row1];
    var two := one + [Seal(h, id2, e2, Newest(one), c2)];
    NewestIsMaximal(own);
    NewestIsLast(own);
    StampAfterLatest(own[|own| - 1], c1);
    EarlierIsNotNewest(own, row1);
    if Chained(h, two, true) {
      LinksDiffer(h, two, true, |own|, |own| + 1);
    }
  }

  lemma StampAfterLatest(previous: Row, clock: DateTime)
    requires Valid(clock) && Parse(previous.createdAt) == Some(LATEST) && clock != LATEST
    ensures Less(Stamp(Some(previous), clock), previous.createdAt)
  {
    LatestIsLast(clock);
    assert Tick(LATEST).None?;
    PrintOrder(clock, LATEST);
    assert Before(clock, LATEST);
  }

  lemma EarlierIsNotNewest(own: seq<Row>, row: Row)
    requires Newest(own).Some? && Less(row.createdAt, Newest(own).value.createdAt)
    ensures Newest(own + [row]) == Newest(own)
  {
    assert (own + [row])[..|own|] == own;
    LessAsymmetric(row.createdAt, Newest(own).value.createdAt);
  }

  // ---------------------------------------------------------------- tampering

  /**
   * Altering any hashed field of a row while keeping its stored hash is caught;
   * the row's own fields must be free of the separator, the altered ones need not.
   * An alteration that keeps the hashed fields and the link is not caught.
   */
  lemma TamperEvident(h: Digest, rows: seq<Row>, scoped: bool, i: nat, altered: Row)
    requires CollisionFree(h) && Chained(h, rows, scoped) && i < |rows|
    requires AllClean(Covered(rows[i])) && altered.eventHash == rows[i].eventHash
    ensures Chained(h, rows[i := altered], scoped) ==> Covered(altered) == Covered(rows[i])
    ensures Covered(altered) == Covered(rows[i]) && altered.previousHash == rows[i].previousHash ==>
              Chained(h, rows[i := altered], scoped)
  {
    var next := rows[i := altered];
    FrameRecovers(Covered(rows[i]), Covered(altered));
    if Chained(h, next, scoped) {
      assert Recomputes(h, next[i]);
    }
    if Covered(altered) == Covered(rows[i]) && altered.previousHash == rows[i].previousHash {
      SameLinks(h, rows, next, scoped);
    }
  }

  /** Acceptance depends on the links and hashes only, once every hash recomputes. */
  lemma SameLinks(h: Digest, rows: seq<Row>, next: seq<Row>, scoped: bool)
    requires Chained(h, rows, scoped) && |next| == |rows|
    requires forall k :: 0 <= k < |rows| ==>
               next[k].eventHash == rows[k].eventHash && next[k].previousHash == rows[k].previousHash
                 && Recomputes(h, next[k])
    ensures Chained(h, next, scoped)
  {
    var order :| CompletePath(rows, order, scoped);
    forall hash ensures HasHash(next, hash) <==> HasHash(rows, hash) {
      if HasHash(next, hash) {
        var k :| 0 <= k < |next| && next[k].eventHash == hash;
        assert rows[k].eventHash == hash;
      }
    }
    assert CompletePath(next, order, scoped);
  }

  /** The actor is not evidence: any row may be given another actor unnoticed. */
  lemma ActorNotCovered(h: Digest, rows: seq<Row>, scoped: bool, i: nat, actor: Option<string>)
    requires Chained(h, rows, scoped) && i < |rows|
    ensures Chained(h, rows[i := rows[i].(event := rows[i].event.(actor := actor))], scoped)
  {
    var next := rows[i := rows[i].(event := rows[i].event.(actor := actor))];
    assert Covered(next[i]) == Covered(rows[i]);
    SameLinks(h, rows, next, scoped);
  }

  // ---------------------------------------------------------------- fields that hold the separator

  /** The row with these covered fields, its actor and stored hash kept, and its link where it is the same text. */
  function Rebuilt(row: Row, parts: seq<string>): Row
    requires |parts| == 11
  {
    Row(parts[0],
        Event(parts[1], parts[2], row.event.actor, parts[3], Some(parts[4]), parts[5], parts[6], parts[7], parts[10]),
        if parts[LINK] == row.previousHash.Or("") then row.previousHash else Some(parts[LINK]),
        row.eventHash, parts[9])
  }

  /** Where the link stands among the covered fields. */
  const LINK := 8

  lemma RebuiltCovers(row: Row, parts: seq<string>)
    requires |parts| == 11
    ensures Covered(Rebuilt(row, parts)) == parts
  {
  }

  /** With a separator in any covered field but the last, text moves into the next field under the same hash. */
  lemma SeparatorLetsFieldsShift(h: Digest, row: Row, k: nat, a: string, b: string)
    requires Recomputes(h, row) && k < 10 && Covered(row)[k] == a + MARK + b
    ensures var shifted := Rebuilt(row, Covered(row)[k := a][k + 1 := b + MARK + Covered(row)[k + 1]]);
            Recomputes(h, shifted) && shifted.eventHash == row.eventHash
  {
    hide Frame;
    var x := Covered(row);
    FrameMergesFields(a, b, x[k + 1]);
    FramePair(x, k, a, b + MARK + x[k + 1]);
    RebuiltCovers(row, x[k := a][k + 1 := b + MARK + x[k + 1]]);
  }

  /** A stored hash pins a row's covered fields exactly when none of them holds the separator. */
  lemma HashPinsFields(h: Digest, row: Row)
    requires CollisionFree(h) && Recomputes(h, row)
    ensures AllClean(Covered(row)) <==>
              forall altered: Row :: altered.eventHash == row.eventHash && Recomputes(h, altered) ==>
                Covered(altered) == Covered(row)
  {
    hide Frame, AllClean, Covered;
    RecoverableIff(Covered(row));
    if AllClean(Covered(row)) {
      forall altered: Row | altered.eventHash == row.eventHash && Recomputes(h, altered)
        ensures Covered(altered) == Covered(row)
      {
        FrameRecovers(Covered(row), Covered(altered));
      }
    } else {
      var qs :| |qs| == |Covered(row)| && Frame(qs) == Frame(Covered(row)) && qs != Covered(row);
      RebuiltCovers(row, qs);
      assert Recomputes(h, Rebuilt(row, qs));
    }
  }

  /** A separator in a field other than the link lets the fields change with the link kept. */
  lemma ShiftBesideLink(ps: seq<string>, i: nat) returns (qs: seq<string>)
    requires |ps| == 11 && i < 11 && i != LINK && !Clean(ps[i])
    ensures |qs| == 11 && qs != ps && Frame(qs) == Frame(ps) && qs[LINK] == ps[LINK]
  {
    hide Frame, Clean;
    if i == LINK - 1 || i == 10 {
      qs := ShiftLeft(ps, i - 1);
    } else {
      qs := ShiftRight(ps, i);
    }
  }

  /**
   * No alteration of row `i` that keeps its stored hash and link is accepted, but one that leaves the
   * covered fields.
   */
  ghost predicate Pinned(h: Digest, rows: seq<Row>, scoped: bool, i: nat)
    requires i < |rows|
  {
    forall altered: Row ::
      (altered.eventHash == rows[i].eventHash && altered.previousHash == rows[i].previousHash
       && Chained(h, rows[i := altered], scoped))
      ==> Covered(altered) == Covered(rows[i])
  }

  /**
   * In an accepted ledger a row is evident against alteration exactly when no covered
   * field, the link aside, holds the separator.
   */
  lemma TamperEvidentIff(h: Digest, rows: seq<Row>, scoped: bool, i: nat)
    requires CollisionFree(h) && Chained(h, rows, scoped) && i < |rows|
    ensures Pinned(h, rows, scoped, i) <==> CleanBut(Covered(rows[i]), LINK)
  {
    hide Frame, Clean, Covered;
    var row := rows[i];
    if CleanBut(Covered(row), LINK) {
      forall altered: Row | altered.eventHash == row.eventHash && altered.previousHash == row.previousHash
        && Chained(h, rows[i := altered], scoped) ensures Covered(altered) == Covered(row)
      {
        assert Recomputes(h, rows[i := altered][i]);
        SameLinkText(row, altered);
        FrameRecoversBut(Covered(row), Covered(altered), LINK);
      }
    } else {
      var k :| 0 <= k < 11 && k != LINK && !Clean(Covered(row)[k]);
      var qs := ShiftBesideLink(Covered(row), k);
      var altered := Rebuilt(row, qs);
      RebuiltCovers(row, qs);
      SameLinkText(row, row);
      SameLinks(h, rows, rows[i := altered], scoped);
    }
  }

  lemma SameLinkText(a: Row, b: Row)
    requires a.previousHash == b.previousHash
    ensures Covered(a)[LINK] == Covered(b)[LINK] == a.previousHash.Or("")
  {
  }
}
