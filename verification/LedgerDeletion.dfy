/**
 * The checker's verdict as a fact about the rows alone, in whatever order they are read,
 * and what it says of a table some rows were deleted from.
 */
module LedgerDeletion {
  import opened Options
  import opened LedgerFraming
  import opened Counting
  import opened Ledger

  /** Rows in link order: sealed, hashed apart, each naming the one before, the first a root among them. */
  ghost predicate IsChain(h: Digest, p: seq<Row>, scoped: bool) {
    && Sealed(h, p) && DistinctHashes(p)
    && (p != [] ==> IsRoot(p, p[0], scoped))
    && forall k :: 0 < k < |p| ==> p[k].previousHash == Some(p[k - 1].eventHash)
  }

  // ---------------------------------------------------------------- the order rows are read in

  lemma DistinctRows(rows: seq<Row>)
    requires DistinctHashes(rows)
    ensures Distinct(rows)
  {
  }

  lemma {:induction false} CountedOnce<T(!new)>(xs: seq<T>, x: T)
    requires Distinct(xs)
    ensures multiset(xs)[x] == if x in xs then 1 else 0
  {
    if xs != [] {
      var init, last := xs[..|xs| - 1], xs[|xs| - 1];
      assert xs == init + [last];
      CountedOnce(init, x);
      assert multiset(xs)[x] == multiset(init)[x] + if x == last then 1 else 0;
      forall k | 0 <= k < |init| ensures init[k] != last {
        assert xs[k] != xs[|xs| - 1];
      }
    }
  }

  /** Two lists without repeats hold the same rows as often when they hold the same rows. */
  lemma SameOnce<T(!new)>(xs: seq<T>, ys: seq<T>)
    requires Distinct(xs) && Distinct(ys) && forall x :: x in xs <==> x in ys
    ensures multiset(xs) == multiset(ys)
  {
    forall x ensures multiset(xs)[x] == multiset(ys)[x] {
      CountedOnce(xs, x);
      CountedOnce(ys, x);
    }
  }

  /** A list that holds no row more often than one without repeats has none either. */
  lemma FewerDistinct<T(!new)>(xs: seq<T>, ys: seq<T>)
    requires Distinct(ys) && multiset(xs) <= multiset(ys)
    ensures Distinct(xs)
  {
    forall i, j | 0 <= i < j < |xs| ensures xs[i] != xs[j] {
      CountedOnce(ys, xs[i]);
      assert xs == xs[..j] + [xs[j]] + xs[j + 1..];
      assert xs[i] in xs[..j];
      assert xs[i] == xs[j] ==> multiset(xs)[xs[i]] >= 2;
    }
  }

  lemma SameHashes(a: seq<Row>, b: seq<Row>, hash: string)
    requires multiset(a) == multiset(b)
    ensures HasHash(a, hash) ==> HasHash(b, hash)
  {
    if HasHash(a, hash) {
      var i :| 0 <= i < |a| && a[i].eventHash == hash;
      assert a[i] in multiset(a);
      assert a[i] in b;
      var j :| 0 <= j < |b| && b[j] == a[i];
    }
  }

  function Along(rows: seq<Row>, order: seq<nat>): (p: seq<Row>)
    requires forall k :: 0 <= k < |order| ==> order[k] < |rows|
    ensures |p| == |order| && forall k :: 0 <= k < |p| ==> p[k] == rows[order[k]]
  {
    seq(|order|, k requires 0 <= k < |order| => rows[order[k]])
  }

  lemma AlongMembers(rows: seq<Row>, order: seq<nat>, x: Row)
    requires |order| == |rows| && Distinct(order) && forall k :: 0 <= k < |order| ==> order[k] < |rows|
    ensures x in Along(rows, order) <==> x in rows
  {
    if x in rows {
      var i :| 0 <= i < |rows| && rows[i] == x;
      Covers(order, |rows|);
      assert i in order;
      var k :| 0 <= k < |order| && order[k] == i;
      assert Along(rows, order)[k] == x;
    }
  }

  lemma AlongSame(rows: seq<Row>, order: seq<nat>)
    requires |order| == |rows| && Distinct(order) && forall k :: 0 <= k < |order| ==> order[k] < |rows|
    requires DistinctHashes(rows)
    ensures multiset(Along(rows, order)) == multiset(rows) && DistinctHashes(Along(rows, order))
  {
    var p := Along(rows, order);
    forall j, k | 0 <= j < k < |p| ensures p[j].eventHash != p[k].eventHash {
      assert order[j] != order[k];
    }
    DistinctRows(p);
    DistinctRows(rows);
    forall x ensures x in p <==> x in rows {
      AlongMembers(rows, order, x);
    }
    SameOnce(p, rows);
  }

  /** What an accepted table's rows look like along their links. */
  lemma PathRows(h: Digest, rows: seq<Row>, scoped: bool) returns (p: seq<Row>)
    requires Chained(h, rows, scoped)
    ensures multiset(p) == multiset(rows) && IsChain(h, p, scoped)
  {
    hide DistinctHashes, HasHash, Recomputes;
    var order :| CompletePath(rows, order, scoped);
    p := Along(rows, order);
    AlongSame(rows, order);
    if p != [] && p[0].previousHash.Some? {
      SameHashes(p, rows, p[0].previousHash.value);
    }
  }

  /** The position of each row of `p` among `rows`. */
  lemma Positions(rows: seq<Row>, p: seq<Row>) returns (order: seq<nat>)
    requires forall x :: x in p ==> x in rows
    ensures |order| == |p| && forall k :: 0 <= k < |p| ==> order[k] < |rows| && rows[order[k]] == p[k]
  {
    order := [];
    for n := 0 to |p|
      invariant |order| == n && forall k :: 0 <= k < n ==> order[k] < |rows| && rows[order[k]] == p[k]
    {
      assert p[n] in rows;
      var i :| 0 <= i < |rows| && rows[i] == p[n];
      order := order + [i];
    }
  }

  lemma RowsSealed(h: Digest, rows: seq<Row>, p: seq<Row>)
    requires multiset(p) == multiset(rows) && Sealed(h, p) && DistinctHashes(p)
    ensures Sealed(h, rows) && DistinctHashes(rows)
  {
    hide Recomputes;
    SameMembers(p, rows);
    DistinctRows(p);
    FewerDistinct(rows, p);
    forall i | 0 <= i < |rows| ensures Recomputes(h, rows[i]) {
      assert rows[i] in p;
    }
    forall i, j | 0 <= i < j < |rows| ensures rows[i].eventHash != rows[j].eventHash {
      assert rows[i] in p && rows[j] in p && rows[i] != rows[j];
      var k :| 0 <= k < |p| && p[k] == rows[i];
      var l :| 0 <= l < |p| && p[l] == rows[j];
    }
  }

  lemma RowsPath(h: Digest, rows: seq<Row>, p: seq<Row>, scoped: bool)
    requires multiset(p) == multiset(rows) && IsChain(h, p, scoped)
    ensures Chained(h, rows, scoped)
  {
    RowsSealed(h, rows, p);
    SameMembers(p, rows);
    hide HasHash, Recomputes;
    var order := Positions(rows, p);
    if p != [] && p[0].previousHash.Some? {
      SameHashes(rows, p, p[0].previousHash.value);
    }
    assert |p| == |multiset(p)| == |multiset(rows)| == |rows|;
    assert CompletePath(rows, order, scoped);
  }

  lemma SameMembers<T>(a: seq<T>, b: seq<T>)
    requires multiset(a) == multiset(b)
    ensures forall x :: x in a <==> x in b
  {
    assert forall x :: x in a <==> x in multiset(a);
    assert forall x :: x in b <==> x in multiset(b);
  }

  /** A table is accepted exactly when its rows, put in some order, are a chain. */
  lemma AcceptedIff(h: Digest, rows: seq<Row>, scoped: bool)
    ensures Chained(h, rows, scoped) <==> exists p :: multiset(p) == multiset(rows) && IsChain(h, p, scoped)
  {
    hide Chained, IsChain;
    if Chained(h, rows, scoped) {
      var p := PathRows(h, rows, scoped);
    }
    if p :| multiset(p) == multiset(rows) && IsChain(h, p, scoped) {
      RowsPath(h, rows, p, scoped);
    }
  }

  /** The verdict does not depend on the order the rows are read in. */
  lemma AnyReadingOrder(h: Digest, a: seq<Row>, b: seq<Row>, scoped: bool)
    requires multiset(a) == multiset(b)
    ensures Chained(h, a, scoped) <==> Chained(h, b, scoped)
  {
    hide Chained, IsChain;
    AcceptedIff(h, a, scoped);
    AcceptedIff(h, b, scoped);
  }

  // ---------------------------------------------------------------- deletion

  /** The rows left are those of the path from position `i` up to `j`. */
  ghost predicate StretchOf(p: seq<Row>, rest: seq<Row>, i: nat, j: nat) {
    i <= j <= |p| && multiset(rest) == multiset(p[i..j])
  }

  /** The row of a chain that names another row of it stands right after that one. */
  lemma NextInChain(h: Digest, p: seq<Row>, scoped: bool, i: nat, row: Row) returns (j: nat)
    requires IsChain(h, p, scoped) && i < |p| && row in p && row.previousHash == Some(p[i].eventHash)
    ensures j == i + 1 && j < |p| && p[j] == row
  {
    j :| 0 <= j < |p| && p[j] == row;
    assert HasHash(p, p[i].eventHash);
    assert p[j - 1].eventHash == p[i].eventHash;
  }

  /** A chain made of rows of another is a stretch of it. */
  lemma ChainInChain(h: Digest, p: seq<Row>, r: seq<Row>, scoped: bool) returns (i: nat)
    requires IsChain(h, p, scoped) && IsChain(h, r, true) && forall x :: x in r ==> x in p
    ensures i + |r| <= |p| && r == p[i..i + |r|]
  {
    hide IsChain;
    i := 0;
    if r != [] {
      assert r[0] in p;
      i :| 0 <= i < |p| && p[i] == r[0];
      for k := 1 to |r|
        invariant i + k <= |p| && forall l :: 0 <= l < k ==> r[l] == p[i + l]
      {
        LinkAt(h, r, true, k);
        assert r[k] in p;
        var j := NextInChain(h, p, scoped, i + k - 1, r[k]);
      }
    }
  }

  lemma LinkAt(h: Digest, p: seq<Row>, scoped: bool, k: nat)
    requires IsChain(h, p, scoped) && 0 < k < |p|
    ensures p[k].previousHash == Some(p[k - 1].eventHash)
  {
  }

  /** Any stretch of a chain is one, with a dangling link; without, when it is an initial one. */
  lemma StretchIsChain(h: Digest, p: seq<Row>, scoped: bool, i: nat, j: nat)
    requires IsChain(h, p, scoped) && i <= j <= |p|
    ensures IsChain(h, p[i..j], true)
    ensures !scoped && i == 0 ==> IsChain(h, p[i..j], false)
  {
    var r := p[i..j];
    if i < j {
      assert r[0] == p[i];
      if i == 0 {
        assert IsRoot(p, p[0], scoped);
        assert r[0].previousHash.Some? && HasHash(r, r[0].previousHash.value) ==> HasHash(p, r[0].previousHash.value);
      } else {
        assert r[0].previousHash == Some(p[i - 1].eventHash);
        assert !HasHash(r, p[i - 1].eventHash);
      }
    }
  }

  lemma ScopedToo(h: Digest, p: seq<Row>)
    requires IsChain(h, p, false)
    ensures IsChain(h, p, true)
  {
  }

  lemma MembersLeft(rest: seq<Row>, p: seq<Row>)
    requires multiset(rest) <= multiset(p)
    ensures forall x :: x in rest ==> x in p
  {
    forall x | x in rest ensures x in p {
      assert x in multiset(rest) && multiset(rest)[x] <= multiset(p)[x];
      assert x in multiset(p);
    }
  }

  /**
   * What deleting rows from an accepted project's chain leaves is accepted by the scoped
   * check exactly when it is a stretch of the chain: a cut at either end goes unnoticed, a
   * hole does not.
   */
  lemma ScopedDeletionIff(h: Digest, p: seq<Row>, rest: seq<Row>)
    requires IsChain(h, p, true) && multiset(rest) <= multiset(p)
    ensures Chained(h, rest, true) <==> exists i, j :: StretchOf(p, rest, i, j)
  {
    hide Chained, IsChain;
    if Chained(h, rest, true) {
      var r := PathRows(h, rest, true);
      MembersLeft(r, p);
      var i := ChainInChain(h, p, r, true);
      assert StretchOf(p, rest, i, i + |r|);
    }
    if i: nat, j: nat :| StretchOf(p, rest, i, j) {
      StretchIsChain(h, p, true, i, j);
      RowsPath(h, rest, p[i..j], true);
    }
  }

  /** The unscoped check notices a cut at the front, too: what is left must begin where the chain does. */
  lemma UnscopedDeletionIff(h: Digest, p: seq<Row>, rest: seq<Row>)
    requires IsChain(h, p, false) && multiset(rest) <= multiset(p)
    ensures Chained(h, rest, false) <==> exists j :: StretchOf(p, rest, 0, j)
  {
    hide Chained, IsChain;
    if Chained(h, rest, false) {
      var r := PathRows(h, rest, false);
      MembersLeft(r, p);
      ScopedToo(h, r);
      var i := ChainInChain(h, p, r, false);
      if r != [] {
        RootIsFirst(h, p, r, i);
      }
      assert StretchOf(p, rest, 0, |r|);
    }
    if j: nat :| StretchOf(p, rest, 0, j) {
      StretchIsChain(h, p, false, 0, j);
      RowsPath(h, rest, p[0..j], false);
    }
  }

  lemma RootIsFirst(h: Digest, p: seq<Row>, r: seq<Row>, i: nat)
    requires IsChain(h, p, false) && IsChain(h, r, false) && r != [] && i < |p| && p[i] == r[0]
    ensures i == 0
  {
    if i > 0 {
      LinkAt(h, p, false, i);
    }
  }
}
