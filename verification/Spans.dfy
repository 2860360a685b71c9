/** Exact quotes in a source text: searching, validating, repairing and counting. */
module Spans {
  import opened Options

  datatype SpanMatch = SpanMatch(charStart: nat, charEnd: nat, quote: string, exact: bool, occurrence: int)

  predicate Occurs(s: string, q: string, i: int) {
    0 <= i <= |s| - |q| && s[i..i + |q|] == q
  }

  /** `s.find(q, from)`: the first occurrence at or after `from`. */
  function Find(s: string, q: string, from: nat): (r: Option<nat>)
    ensures r.Some? ==> from <= r.value && Occurs(s, q, r.value)
    ensures forall i :: from <= i && (r.Some? ==> i < r.value) ==> !Occurs(s, q, i)
    decreases |s| - from
  {
    if from + |q| > |s| then None
    else if Occurs(s, q, from) then Some(from)
    else Find(s, q, from + 1)
  }

  /** How many occurrences, overlapping ones included, start before `n`. */
  function Starts(s: string, q: string, n: nat): nat {
    if n == 0 then 0 else Starts(s, q, n - 1) + if Occurs(s, q, n - 1) then 1 else 0
  }

  lemma {:induction false} NoStarts(s: string, q: string, lo: nat, hi: nat)
    requires lo <= hi && forall i :: lo <= i < hi ==> !Occurs(s, q, i)
    ensures Starts(s, q, hi) == Starts(s, q, lo)
    decreases hi
  {
    if hi > lo {
      NoStarts(s, q, lo, hi - 1);
    }
  }

  lemma {:induction false} StartsNext(s: string, q: string, i: nat)
    requires Occurs(s, q, i)
    ensures Starts(s, q, i + 1) == Starts(s, q, i) + 1
  {
  }

  /**
   * `find_exact_quote_span`: occurrence number `occurrence` of a non-empty quote,
   * overlapping occurrences counted.
   */
  method FindExactQuoteSpan(source: string, quote: string, occurrence: int) returns (r: Option<SpanMatch>)
    ensures r.Some? ==>
              && quote != "" && occurrence >= 0 && Occurs(source, quote, r.value.charStart)
              && Starts(source, quote, r.value.charStart) == occurrence
              && r.value == SpanMatch(r.value.charStart, r.value.charStart + |quote|, quote, true, occurrence)
    ensures r.None? ==> quote == "" || occurrence < 0 || Starts(source, quote, |source|) <= occurrence
  {
    if quote == "" {
      return None;
    }
    if occurrence < 0 {
      return None;
    }
    var cursor, found := 0, -1;
    assert Starts(source, quote, 0) == 0;
    hide Starts, Find;
    while true
      invariant 0 <= cursor <= |source| && Starts(source, quote, cursor) == found + 1 <= occurrence
      decreases |source| - cursor
    {
      var at := Find(source, quote, cursor);
      if at.None? {
        NoStarts(source, quote, cursor, |source|);
        return None;
      }
      NoStarts(source, quote, cursor, at.value);
      StartsNext(source, quote, at.value);
      found := found + 1;
      if found == occurrence {
        var end := at.value + |quote|;
        return Some(SpanMatch(at.value, end, quote, source[at.value..end] == quote, occurrence));
      }
      cursor := at.value + 1;
    }
  }

  lemma {:induction false} StartsGrow(s: string, q: string, lo: nat, hi: nat)
    requires lo <= hi
    ensures Starts(s, q, lo) <= Starts(s, q, hi)
  {
    if hi > lo {
      StartsGrow(s, q, lo, hi - 1);
    }
  }

  /** The answers of the search are unique: the number of earlier occurrences fixes the position. */
  lemma {:induction false} StartsIdentify(s: string, q: string, i: nat, j: nat)
    requires Occurs(s, q, i) && Occurs(s, q, j) && Starts(s, q, i) == Starts(s, q, j)
    ensures i == j
  {
    if i < j {
      StartsGrow(s, q, i + 1, j);
    } else if j < i {
      StartsGrow(s, q, j + 1, i);
    }
  }

  /** `validate_span`. */
  predicate ValidateSpan(source: string, start: int, end: int, quote: string) {
    if start < 0 || end < 0 || end <= start then false
    else if end > |source| then false
    else source[start..end] == quote
  }

  /** A span validates exactly when the quote is non-empty and occurs there with that length. */
  lemma ValidIsOccurrence(source: string, start: int, end: int, quote: string)
    ensures ValidateSpan(source, start, end, quote) <==>
              quote != "" && end == start + |quote| && Occurs(source, quote, start)
  {
  }

  /** `repair_span_from_quote`: the first occurrence. */
  method RepairSpanFromQuote(source: string, quote: string) returns (r: Option<SpanMatch>)
    ensures r == FirstMatch(source, quote)
  {
    r := FindExactQuoteSpan(source, quote, 0);
    FirstStarts(source, quote, if r.Some? then Some(r.value.charStart) else None);
  }

  function FirstMatch(source: string, quote: string): Option<SpanMatch> {
    if quote == "" then None
    else match Find(source, quote, 0)
      case None => None
      case Some(i) => Some(SpanMatch(i, i + |quote|, quote, true, 0))
  }

  lemma {:induction false} FirstStarts(s: string, q: string, at: Option<nat>)
    requires at.Some? ==> Occurs(s, q, at.value) && Starts(s, q, at.value) == 0
    requires at.None? && q != "" ==> Starts(s, q, |s|) == 0
    ensures q != "" ==> Find(s, q, 0) == at
  {
    var first := Find(s, q, 0);
    if q != "" && first.Some? {
      NoStarts(s, q, 0, first.value);
      if at.Some? {
        StartsIdentify(s, q, first.value, at.value);
      } else {
        StartsGrow(s, q, first.value + 1, |s|);
      }
    }
  }

  /** `s.count(q)` from a position on: occurrences that do not overlap, taken from the left. */
  function Count(s: string, q: string, from: nat): nat
    requires q != ""
    decreases |s| - from
  {
    match Find(s, q, from)
    case None => 0
    case Some(i) => 1 + Count(s, q, i + |q|)
  }

  // ---------------------------------------------------------------- when a count of one means one occurrence

  /** No proper prefix of the quote is also a suffix of it. */
  predicate BorderFree(q: string) {
    forall k :: 0 < k < |q| ==> q[k..] != q[..|q| - k]
  }

  ghost predicate OccursOnce(s: string, q: string) {
    exists i :: Occurs(s, q, i) && forall j :: Occurs(s, q, j) ==> j == i
  }

  lemma {:induction false} OverlapIsBorder(s: string, q: string, i: int, j: int)
    requires Occurs(s, q, i) && Occurs(s, q, j) && i < j < i + |q|
    ensures !BorderFree(q)
  {
    var k := j - i;
    assert q[k..] == s[j..i + |q|];
    assert q[..|q| - k] == s[j..i + |q|];
  }

  lemma {:induction false} CountOneIsOnce(s: string, q: string)
    requires q != "" && BorderFree(q) && Count(s, q, 0) == 1
    ensures OccursOnce(s, q)
  {
    var i := Find(s, q, 0).value;
    assert Find(s, q, i + |q|).None?;
    forall j | Occurs(s, q, j) ensures j == i {
      if i < j < i + |q| {
        OverlapIsBorder(s, q, i, j);
      }
    }
  }

  /** A quote laid over itself at one of its borders. */
  lemma {:induction false} OverlaidQuote(q: string, k: nat) returns (s: string)
    requires 0 < k < |q| && q[k..] == q[..|q| - k]
    ensures Count(s, q, 0) == 1 && Occurs(s, q, 0) && Occurs(s, q, k)
  {
    s := q + q[|q| - k..];
    assert s[0..|q|] == q;
    assert s[k..k + |q|] == q[k..] + q[|q| - k..];
    assert q == q[..|q| - k] + q[|q| - k..];
    assert Find(s, q, 0) == Some(0);
    assert Find(s, q, |q|) == None;
  }

  /**
   * `str.count` skips overlapping occurrences. A count of one proves the quote occurs
   * once, in every source, exactly for the quotes that have no border.
   */
  lemma {:induction false} CountOneIff(q: string)
    requires q != ""
    ensures BorderFree(q) <==> forall s :: Count(s, q, 0) == 1 ==> OccursOnce(s, q)
  {
    if BorderFree(q) {
      forall s | Count(s, q, 0) == 1 ensures OccursOnce(s, q) {
        CountOneIsOnce(s, q);
      }
    } else {
      var k :| 0 < k < |q| && q[k..] == q[..|q| - k];
      var s := OverlaidQuote(q, k);
      assert Occurs(s, q, 0) && Occurs(s, q, k);
    }
  }
}
