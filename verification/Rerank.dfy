/** `diversify_results`: maximal marginal relevance, one pick at a time. */
module Rerank {
  import opened Options
  import opened Results

  /** Embedding similarity of two texts. */
  type Similarity = (string, string) -> real

  /** The vector kept for an id is that of the last result with it. */
  function TextOf(rs: seq<Result>, id: string): string {
    if rs == [] then ""
    else if rs[|rs| - 1].id == id then rs[|rs| - 1].text
    else TextOf(rs[..|rs| - 1], id)
  }

  function Closest(sim: Similarity, all: seq<Result>, r: Result, selected: seq<Result>): real
    requires selected != []
  {
    var last := sim(TextOf(all, r.id), TextOf(all, selected[|selected| - 1].id));
    if |selected| == 1 then last
    else
      var before := Closest(sim, all, r, selected[..|selected| - 1]);
      if last > before then last else before
  }

  function Redundancy(sim: Similarity, all: seq<Result>, r: Result, selected: seq<Result>): real {
    if selected == [] then 0.0 else Closest(sim, all, r, selected)
  }

  function Mmr(sim: Similarity, weight: real, all: seq<Result>, r: Result, selected: seq<Result>): real {
    weight * r.score - (1.0 - weight) * Redundancy(sim, all, r, selected)
  }

  /** The first of the best-scoring results that remain. */
  ghost predicate IsPick(sim: Similarity, weight: real, all: seq<Result>, selected: seq<Result>, remaining: seq<Result>,
      k: nat)
  {
    && k < |remaining|
    && (forall j :: 0 <= j < |remaining| ==>
          Mmr(sim, weight, all, remaining[j], selected) <= Mmr(sim, weight, all, remaining[k], selected))
    && (forall j :: 0 <= j < k ==>
         Mmr(sim, weight, all, remaining[j], selected) < Mmr(sim, weight, all, remaining[k], selected))
  }

  function Best(sim: Similarity, weight: real, all: seq<Result>, selected: seq<Result>, remaining: seq<Result>,
      n: nat): (k: nat)
    requires 0 < n <= |remaining|
    ensures k < n
  {
    if n == 1 then 0
    else
      var k := Best(sim, weight, all, selected, remaining, n - 1);
      if Mmr(sim, weight, all, remaining[n - 1], selected) > Mmr(sim, weight, all, remaining[k], selected) then n - 1
        else k
  }

  lemma {:induction false} BestIsPick(sim: Similarity, weight: real, all: seq<Result>, selected: seq<Result>,
      remaining: seq<Result>, n: nat)
    requires 0 < n <= |remaining|
    ensures IsPick(sim, weight, all, selected, remaining[..n], Best(sim, weight, all, selected, remaining, n))
  {
    hide Mmr;
    if n > 1 {
      BestIsPick(sim, weight, all, selected, remaining, n - 1);
      assert forall j :: 0 <= j < n - 1 ==> remaining[..n][j] == remaining[..n - 1][j];
    }
  }

  /** `list.remove`: the first equal element goes. */
  function Remove(rs: seq<Result>, r: Result): (out: seq<Result>)
    ensures |out| == if r in rs then |rs| - 1 else |rs|
  {
    if rs == [] then [] else if rs[0] == r then rs[1..] else [rs[0]] + Remove(rs[1..], r)
  }

  /** Removing the pick removes just that one: nothing equal comes before it. */
  lemma {:induction false} RemovePick(rs: seq<Result>, k: nat)
    requires k < |rs| && forall j :: 0 <= j < k ==> rs[j] != rs[k]
    ensures Remove(rs, rs[k]) == rs[..k] + rs[k + 1..]
  {
    if k > 0 {
      var rest := rs[1..];
      RemovePick(rest, k - 1);
      assert rs[..k] == [rs[0]] + rest[..k - 1];
      assert rs[k + 1..] == rest[k..];
    }
  }

  lemma {:induction false} RemoveOne(rs: seq<Result>, r: Result)
    requires r in rs
    ensures multiset(rs) == multiset{r} + multiset(Remove(rs, r))
  {
    assert rs == [rs[0]] + rs[1..];
    if rs[0] != r {
      RemoveOne(rs[1..], r);
    }
  }

  /** The selection continued from what is selected and what remains. */
  function SelectFrom(sim: Similarity, weight: real, all: seq<Result>, selected: seq<Result>, remaining: seq<Result>,
      topK: int): seq<Result>
    decreases |remaining|
  {
    if remaining == [] || |selected| >= topK then selected
    else
      var best := remaining[Best(sim, weight, all, selected, remaining, |remaining|)];
      SelectFrom(sim, weight, all, selected + [best], Remove(remaining, best), topK)
  }

  function Diversify(sim: Similarity, weight: real, rs: seq<Result>, topK: int): seq<Result> {
    if |rs| <= topK then rs else SelectFrom(sim, weight, rs, [], rs, topK)
  }

  /** `diversify_results`. */
  method DiversifyResults(sim: Similarity, rs: seq<Result>, topK: int, weight: real) returns (selected: seq<Result>)
    ensures selected == Diversify(sim, weight, rs, topK)
  {
    if |rs| <= topK {
      return rs;
    }
    selected := [];
    var remaining := rs;
    while remaining != [] && |selected| < topK
      invariant SelectFrom(sim, weight, rs, [], rs, topK) == SelectFrom(sim, weight, rs, selected, remaining, topK)
      decreases |remaining|
    {
      var best := FindBest(sim, weight, rs, selected, remaining);
      selected, remaining := selected + [best], Remove(remaining, best);
    }
  }

  /** The inner loop, with its running `best` and `best_score`. */
  method FindBest(sim: Similarity, weight: real, all: seq<Result>, selected: seq<Result>, remaining: seq<Result>)
    returns (best: Result)
    requires remaining != []
    ensures best == remaining[Best(sim, weight, all, selected, remaining, |remaining|)] && best in remaining
  {
    best := remaining[0];
    var bestScore := Mmr(sim, weight, all, best, selected);
    for n := 1 to |remaining|
      invariant best == remaining[Best(sim, weight, all, selected, remaining, n)]
      invariant bestScore == Mmr(sim, weight, all, best, selected)
    {
      var mmr := Mmr(sim, weight, all, remaining[n], selected);
      if mmr > bestScore {
        best, bestScore := remaining[n], mmr;
      }
    }
  }

  // ---------------------------------------------------------------- what is selected

  function Minimum(a: int, b: int): int {
    if b < a then b else a
  }

  lemma {:induction false} PickIsFirst(sim: Similarity, weight: real, all: seq<Result>, selected: seq<Result>,
      remaining: seq<Result>, k: nat)
    requires IsPick(sim, weight, all, selected, remaining, k)
    ensures forall j :: 0 <= j < k ==> remaining[j] != remaining[k]
  {
    hide Mmr;
  }

  /** One turn: the pick, and what it leaves. */
  lemma Turn(sim: Similarity, weight: real, all: seq<Result>, selected: seq<Result>, remaining: seq<Result>)
    returns (k: nat)
    requires remaining != []
    ensures IsPick(sim, weight, all, selected, remaining, k)
    ensures k == Best(sim, weight, all, selected, remaining, |remaining|)
    ensures Remove(remaining, remaining[k]) == remaining[..k] + remaining[k + 1..]
    ensures multiset(remaining) == multiset{remaining[k]} + multiset(Remove(remaining, remaining[k]))
  {
    hide Mmr;
    k := Best(sim, weight, all, selected, remaining, |remaining|);
    BestIsPick(sim, weight, all, selected, remaining, |remaining|);
    assert remaining[..|remaining|] == remaining;
    PickIsFirst(sim, weight, all, selected, remaining, k);
    RemovePick(remaining, k);
    RemoveOne(remaining, remaining[k]);
  }

  lemma {:induction false} SelectCount(sim: Similarity, weight: real, all: seq<Result>, selected: seq<Result>,
      remaining: seq<Result>, topK: int)
    requires |selected| <= topK
    ensures var out := SelectFrom(sim, weight, all, selected, remaining, topK);
            && |out| == Minimum(topK, |selected| + |remaining|)
            && selected <= out
            && multiset(out) <= multiset(selected) + multiset(remaining)
    decreases |remaining|
  {
    hide Best, Mmr, Remove;
    if remaining != [] && |selected| < topK {
      var k := Turn(sim, weight, all, selected, remaining);
      SelectCount(sim, weight, all, selected + [remaining[k]], Remove(remaining, remaining[k]), topK);
    }
  }

  /**
   * With a non-negative `top_k` the selection has min(top_k, n) results, each taken as often as it was
   * there at most.
   */
  lemma DiversifySelects(sim: Similarity, weight: real, rs: seq<Result>, topK: nat)
    ensures var out := Diversify(sim, weight, rs, topK);
            |out| == Minimum(topK, |rs|) && multiset(out) <= multiset(rs)
  {
    SelectCount(sim, weight, rs, [], rs, topK);
  }

  /** A negative `top_k` selects nothing. */
  lemma NegativeSelectsNothing(sim: Similarity, weight: real, rs: seq<Result>, topK: int)
    requires topK < 0
    ensures Diversify(sim, weight, rs, topK) == []
  {
  }

  /** What remains after the first `n` picks. */
  function Remaining(rs: seq<Result>, picked: seq<Result>): seq<Result> {
    if picked == [] then rs else Remove(Remaining(rs, picked[..|picked| - 1]), picked[|picked| - 1])
  }

  lemma {:induction false} SelectPicks(sim: Similarity, weight: real, all: seq<Result>, selected: seq<Result>,
      topK: int, i: nat)
    requires |selected| <= i < |SelectFrom(sim, weight, all, selected, Remaining(all, selected), topK)|
               && |selected| <= topK
    ensures var out := SelectFrom(sim, weight, all, selected, Remaining(all, selected), topK);
            exists k: nat :: IsPick(sim, weight, all, out[..i], Remaining(all, out[..i]), k)
              && Remaining(all, out[..i])[k] == out[i]
    decreases |Remaining(all, selected)|
  {
    hide Best, Mmr, Remove;
    var remaining := Remaining(all, selected);
    var out := SelectFrom(sim, weight, all, selected, remaining, topK);
    var k := Turn(sim, weight, all, selected, remaining);
    var next := selected + [remaining[k]];
    assert next[..|selected|] == selected;
    SelectCount(sim, weight, all, next, Remaining(all, next), topK);
    if i == |selected| {
      assert out[..i] == selected && out[i] == remaining[k];
    } else {
      SelectPicks(sim, weight, all, next, topK, i);
    }
  }

  /** Each pick is the first maximiser of the score over what the earlier picks left. */
  lemma EachPickIsBest(sim: Similarity, weight: real, rs: seq<Result>, topK: nat, i: nat)
    requires |rs| > topK && i < topK
    ensures var out := Diversify(sim, weight, rs, topK);
            && |out| == topK
            && exists k: nat :: IsPick(sim, weight, rs, out[..i], Remaining(rs, out[..i]), k)
                 && Remaining(rs, out[..i])[k] == out[i]
  {
    SelectCount(sim, weight, rs, [], rs, topK);
    SelectPicks(sim, weight, rs, [], topK, i);
  }

  lemma {:induction false} SortedPrefix(sim: Similarity, all: seq<Result>, done: nat, topK: nat)
    requires Falling(all) && done <= topK <= |all|
    ensures SelectFrom(sim, 1.0, all, all[..done], all[done..], topK) == all[..topK]
    decreases |all| - done
  {
    hide Mmr, Best, Remove, IsPick, Falling;
    if done < topK {
      var remaining := all[done..];
      var k := Turn(sim, 1.0, all, all[..done], remaining);
      FirstIsPick(sim, all, done, k);
      Advance(all, done);
      SortedPrefix(sim, all, done + 1, topK);
    }
  }

  lemma Advance(all: seq<Result>, done: nat)
    requires done < |all|
    ensures all[done..][0] == all[done] && all[..done] + [all[done]] == all[..done + 1]
    ensures all[done..][..0] + all[done..][1..] == all[done + 1..]
  {
  }

  /** By relevance alone the pick is the first of the best-scoring. */
  lemma FirstIsPick(sim: Similarity, all: seq<Result>, done: nat, k: nat)
    requires Falling(all) && done < |all| && IsPick(sim, 1.0, all, all[..done], all[done..], k)
    ensures k == 0
  {
    hide Redundancy;
    var remaining := all[done..];
    assert Mmr(sim, 1.0, all, remaining[0], all[..done]) == all[done].score;
    assert Mmr(sim, 1.0, all, remaining[k], all[..done]) == all[done + k].score;
  }

  /** On score-sorted input, relevance weight 1 keeps exactly the sorted prefix. */
  lemma RelevanceKeepsPrefix(sim: Similarity, rs: seq<Result>, topK: nat)
    requires Falling(rs)
    ensures Diversify(sim, 1.0, rs, topK) == rs[..Minimum(topK, |rs|)]
  {
    if |rs| > topK {
      assert rs[..0] == [] && rs[0..] == rs;
      SortedPrefix(sim, rs, 0, topK);
    }
  }
}
