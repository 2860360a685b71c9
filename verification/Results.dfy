/** Retrieval results, and Python's stable sort of them by falling score. */
module Results {
  import opened Options
  import opened Store

  datatype Kind = ClaimResult | ChunkResult

  datatype Result = Result(
    kind: Kind, id: string, text: string, score: real, evidenceId: Option<string>, claimId: Option<string>,
    spanIds: seq<string>, status: Option<Status>)

  ghost predicate Falling(rs: seq<Result>) {
    forall j, k :: 0 <= j < k < |rs| ==> rs[j].score >= rs[k].score
  }

  /** Puts `r` before the first result that scores no more. */
  function Insert(r: Result, rs: seq<Result>): seq<Result> {
    if rs == [] || r.score >= rs[0].score then [r] + rs else [rs[0]] + Insert(r, rs[1..])
  }

  /** `sorted(rs, key=score, reverse=True)`: equal scores keep their order. */
  function Sorted(rs: seq<Result>): seq<Result> {
    if rs == [] then [] else Insert(rs[0], Sorted(rs[1..]))
  }

  lemma {:induction false} InsertIs(r: Result, rs: seq<Result>)
    requires Falling(rs)
    ensures Falling(Insert(r, rs)) && multiset(Insert(r, rs)) == multiset{r} + multiset(rs)
  {
    if rs != [] && r.score < rs[0].score {
      InsertIs(r, rs[1..]);
      InsertFirst(r, rs);
      assert rs == [rs[0]] + rs[1..];
    }
  }

  lemma {:induction false} InsertFirst(r: Result, rs: seq<Result>)
    requires Falling(rs) && rs != [] && r.score < rs[0].score && Falling(Insert(r, rs[1..]))
    requires multiset(Insert(r, rs[1..])) == multiset{r} + multiset(rs[1..])
    ensures Falling([rs[0]] + Insert(r, rs[1..]))
  {
    var rest := Insert(r, rs[1..]);
    forall k | 0 <= k < |rest| ensures rs[0].score >= rest[k].score {
      assert rest[k] in multiset(rest);
      assert rest[k] == r || rest[k] in rs[1..];
    }
  }

  /** Sorting gives the same results with falling scores. */
  lemma {:induction false} SortedIs(rs: seq<Result>)
    ensures Falling(Sorted(rs)) && multiset(Sorted(rs)) == multiset(rs)
  {
    if rs != [] {
      SortedIs(rs[1..]);
      InsertIs(rs[0], Sorted(rs[1..]));
      assert rs == [rs[0]] + rs[1..];
    }
  }

  /** The results with this score, in order. */
  function WithScore(rs: seq<Result>, score: real): seq<Result> {
    if rs == [] then [] else (if rs[0].score == score then [rs[0]] else []) + WithScore(rs[1..], score)
  }

  lemma FirstWithScore(r: Result, rs: seq<Result>, score: real)
    ensures WithScore([r] + rs, score) == (if r.score == score then [r] else []) + WithScore(rs, score)
  {
    assert ([r] + rs)[1..] == rs;
  }

  lemma {:induction false} InsertStable(r: Result, rs: seq<Result>, score: real)
    ensures WithScore(Insert(r, rs), score) == (if r.score == score then [r] else []) + WithScore(rs, score)
  {
    if rs == [] || r.score >= rs[0].score {
      FirstWithScore(r, rs, score);
    } else {
      InsertStable(r, rs[1..], score);
      FirstWithScore(rs[0], Insert(r, rs[1..]), score);
      assert rs == [rs[0]] + rs[1..];
      FirstWithScore(rs[0], rs[1..], score);
      hide WithScore;
    }
  }

  /** Results with equal scores keep their order. */
  lemma {:induction false} SortedStable(rs: seq<Result>, score: real)
    ensures WithScore(Sorted(rs), score) == WithScore(rs, score)
  {
    if rs != [] {
      SortedStable(rs[1..], score);
      InsertStable(rs[0], Sorted(rs[1..]), score);
    }
  }

  /** The first `n` of the sorted results hold the best: none left out scores more than one taken. */
  lemma TopIsBest(rs: seq<Result>, n: nat, r: Result)
    requires r in rs
    ensures var top := if |Sorted(rs)| <= n then Sorted(rs) else Sorted(rs)[..n];
            r in top || (|top| == n && forall x :: x in top ==> x.score >= r.score)
  {
    SortedIs(rs);
    var all := Sorted(rs);
    assert r in multiset(all);
    var k :| 0 <= k < |all| && all[k] == r;
    if |all| > n && k >= n {
      forall x | x in all[..n] ensures x.score >= r.score {
        var j :| 0 <= j < n && all[..n][j] == x;
        assert all[j].score >= all[k].score;
      }
    }
  }
}
