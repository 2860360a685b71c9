/**
 * The fallback tokenizer, the regular expression `\w+|[^\w\s]` with offsets: runs
 * of word characters, and single characters that are neither word nor space.
 */
module Tokens {
  import opened Options
  import opened Text

  type WordClass = char -> bool

  datatype Token = Token(text: string, start: nat, end: nat, index: nat)

  /** The end of the run of word characters that starts at `i`. */
  function RunEnd(word: WordClass, s: string, i: nat): (e: nat)
    requires i <= |s|
    ensures i <= e <= |s|
    decreases |s| - i
  {
    if i < |s| && word(s[i]) then RunEnd(word, s, i + 1) else i
  }

  lemma {:induction false} RunEndIs(word: WordClass, s: string, i: nat)
    requires i <= |s|
    ensures var e := RunEnd(word, s, i);
            (forall k :: i <= k < e ==> word(s[k])) && (e < |s| ==> !word(s[e]))
    decreases |s| - i
  {
    if i < |s| && word(s[i]) {
      RunEndIs(word, s, i + 1);
    }
  }

  /** The end of the token at `i`, or `i` when no token starts there. */
  function TokenEnd(word: WordClass, s: string, i: nat): (e: nat)
    requires i < |s|
    ensures i <= e <= |s|
  {
    if word(s[i]) then RunEnd(word, s, i) else if Space(s[i]) then i else i + 1
  }

  /** The matches found from position `i` on, the first being number `index`. */
  function TokensFrom(word: WordClass, s: string, i: nat, index: nat): seq<Token>
    requires i <= |s|
    decreases |s| - i
  {
    if i == |s| then []
    else
      var e := TokenEnd(word, s, i);
      if e == i then TokensFrom(word, s, i + 1, index)
      else [Token(s[i..e], i, e, index)] + TokensFrom(word, s, e, index + 1)
  }

  function Tokenize(word: WordClass, s: string): seq<Token> {
    TokensFrom(word, s, 0, 0)
  }

  /** `_fallback_tokenize`. */
  method FallbackTokenize(word: WordClass, text: string) returns (out: seq<Token>)
    ensures out == Tokenize(word, text)
  {
    out := [];
    var i := 0;
    while i < |text|
      invariant i <= |text|
      invariant Tokenize(word, text) == out + TokensFrom(word, text, i, |out|)
    {
      var e := i;
      while e < |text| && word(text[e])
        invariant i <= e <= |text|
        invariant RunEnd(word, text, i) == RunEnd(word, text, e)
      {
        e := e + 1;
      }
      if e == i && !Space(text[i]) {
        e := i + 1;
      }
      if e > i {
        Assoc(out, [Token(text[i..e], i, e, |out|)], TokensFrom(word, text, e, |out| + 1));
        out := out + [Token(text[i..e], i, e, |out|)];
        i := e;
      } else {
        i := i + 1;
      }
    }
  }

  // ---------------------------------------------------------------- what a tokenization is

  /** A maximal run of word characters, or one character that is neither word nor space. */
  predicate Whole(word: WordClass, s: string, t: Token) {
    && t.start < t.end <= |s| && t.text == s[t.start..t.end]
    && ((&& (forall k :: t.start <= k < t.end ==> word(s[k]))
         && (t.start > 0 ==> !word(s[t.start - 1])) && (t.end < |s| ==> !word(s[t.end])))
        || (t.end == t.start + 1 && !word(s[t.start]) && !Space(s[t.start])))
  }

  ghost predicate Ordered(ts: seq<Token>) {
    forall j, k :: 0 <= j < k < |ts| ==> ts[j].end <= ts[k].start
  }

  lemma {:induction false} WholeToken(word: WordClass, s: string, i: nat, index: nat)
    requires i < |s| && (0 < i && word(s[i]) ==> !word(s[i - 1])) && i < TokenEnd(word, s, i)
    ensures var e := TokenEnd(word, s, i);
            Whole(word, s, Token(s[i..e], i, e, index)) && (e < |s| && word(s[e]) ==> !word(s[e - 1]))
  {
    if word(s[i]) {
      RunEndIs(word, s, i);
    }
  }

  ghost predicate Shape(word: WordClass, s: string, ts: seq<Token>, i: nat, index: nat) {
    && (forall k :: 0 <= k < |ts| ==> Whole(word, s, ts[k]) && i <= ts[k].start && ts[k].index == index + k)
    && Ordered(ts)
  }

  lemma {:induction false} TokensShape(word: WordClass, s: string, i: nat, index: nat)
    requires i <= |s| && (0 < i < |s| && word(s[i]) ==> !word(s[i - 1]))
    ensures Shape(word, s, TokensFrom(word, s, i, index), i, index)
    decreases |s| - i
  {
    if i < |s| {
      var e := TokenEnd(word, s, i);
      if e == i {
        TokensShape(word, s, i + 1, index);
      } else {
        WholeToken(word, s, i, index);
        TokensShape(word, s, e, index + 1);
        ConsShape(word, s, Token(s[i..e], i, e, index), TokensFrom(word, s, e, index + 1));
      }
    }
  }

  lemma {:induction false} ConsShape(word: WordClass, s: string, t: Token, rest: seq<Token>)
    requires Whole(word, s, t) && Shape(word, s, rest, t.end, t.index + 1)
    ensures Shape(word, s, [t] + rest, t.start, t.index)
  {
    var ts := [t] + rest;
    assert forall k :: 1 <= k < |ts| ==> ts[k] == rest[k - 1];
  }

  /** Positions outside every token hold white space. */
  lemma {:induction false} TokensCover(word: WordClass, s: string, i: nat, index: nat, at: nat)
    requires i <= at < |s| && (word(s[at]) || !Space(s[at]))
    ensures exists t :: t in TokensFrom(word, s, i, index) && t.start <= at < t.end
    decreases |s| - i
  {
    var e := TokenEnd(word, s, i);
    if e == i {
      assert i < at;
      TokensCover(word, s, i + 1, index, at);
    } else if at < e {
      assert Token(s[i..e], i, e, index) in TokensFrom(word, s, i, index);
    } else {
      TokensCover(word, s, e, index + 1, at);
      var t :| t in TokensFrom(word, s, e, index + 1) && t.start <= at < t.end;
      assert t in TokensFrom(word, s, i, index);
    }
  }

  /**
   * The tokens, numbered in order, are disjoint whole words or single symbols, and
   * everything outside them is white space.
   */
  lemma {:induction false} Tokenization(word: WordClass, s: string)
    ensures var ts := Tokenize(word, s);
            && (forall k :: 0 <= k < |ts| ==> Whole(word, s, ts[k]) && ts[k].index == k)
            && Ordered(ts)
            && (forall at :: 0 <= at < |s| && (word(s[at]) || !Space(s[at])) ==>
                  exists t :: t in ts && t.start <= at < t.end)
  {
    TokensShape(word, s, 0, 0);
    forall at | 0 <= at < |s| && (word(s[at]) || !Space(s[at]))
      ensures exists t :: t in Tokenize(word, s) && t.start <= at < t.end
    {
      TokensCover(word, s, 0, 0, at);
    }
  }

  // ---------------------------------------------------------------- tokenizing a slice

  function ShiftToken(t: Token, chars: nat, tokens: nat): Token {
    Token(t.text, t.start + chars, t.end + chars, t.index + tokens)
  }

  function Shift(ts: seq<Token>, chars: nat, tokens: nat): seq<Token> {
    if ts == [] then [] else [ShiftToken(ts[0], chars, tokens)] + Shift(ts[1..], chars, tokens)
  }

  lemma {:induction false} RunEndDrop(word: WordClass, s: string, t: string, off: nat, i: nat, at: nat)
    requires off <= |s| && t == s[off..] && i <= |t| && at == off + i
    ensures RunEnd(word, s, at) == off + RunEnd(word, t, i)
    decreases |t| - i
  {
    if i < |t| && word(t[i]) {
      RunEndDrop(word, s, t, off, i + 1, at + 1);
    }
  }

  lemma {:induction false} TokenEndDrop(word: WordClass, s: string, t: string, off: nat, i: nat, at: nat)
    requires off <= |s| && t == s[off..] && i < |t| && at == off + i
    ensures TokenEnd(word, s, at) == off + TokenEnd(word, t, i)
  {
    RunEndDrop(word, s, t, off, i, at);
  }

  lemma {:induction false} FirstToken(word: WordClass, s: string, i: nat, index: nat)
    requires i < |s| && i < TokenEnd(word, s, i)
    ensures var e := TokenEnd(word, s, i);
            TokensFrom(word, s, i, index) == [Token(s[i..e], i, e, index)] + TokensFrom(word, s, e, index + 1)
  {
  }

  /** Dropping characters on the left shifts the tokens that follow. */
  lemma {:induction false} TokensDrop(word: WordClass, s: string, t: string, off: nat, i: nat, at: nat, index: nat,
      number: nat, tokens: nat)
    requires off <= |s| && t == s[off..] && i <= |t| && at == off + i && number == index + tokens
    ensures TokensFrom(word, s, at, number) == Shift(TokensFrom(word, t, i, index), off, tokens)
    decreases |t| - i
  {
    hide TokenEnd;
    if i < |t| {
      TokenEndDrop(word, s, t, off, i, at);
      if TokenEnd(word, t, i) == i {
        TokensDrop(word, s, t, off, i + 1, at + 1, index, number, tokens);
      } else {
        TokensDrop(word, s, t, off, TokenEnd(word, t, i), TokenEnd(word, s, at), index + 1, number + 1, tokens);
        TokensDropFirst(word, s, t, off, i, at, index, number, tokens);
      }
    }
  }

  lemma {:induction false} TokensDropFirst(word: WordClass, s: string, t: string, off: nat, i: nat, at: nat, index: nat,
      number: nat, tokens: nat)
    requires off <= |s| && t == s[off..] && i < |t| && at == off + i && number == index + tokens
    requires TokenEnd(word, s, at) == off + TokenEnd(word, t, i) && i < TokenEnd(word, t, i)
    requires TokensFrom(word, s, TokenEnd(word, s, at), number + 1)
               == Shift(TokensFrom(word, t, TokenEnd(word, t, i), index + 1), off, tokens)
    ensures TokensFrom(word, s, at, number) == Shift(TokensFrom(word, t, i, index), off, tokens)
  {
    hide TokenEnd, Shift;
    var e, end := TokenEnd(word, t, i), TokenEnd(word, s, at);
    SliceDrop(s, off, i, e);
    FirstToken(word, s, at, number);
    FirstToken(word, t, i, index);
    ShiftFirst(TokensFrom(word, s, at, number), Token(s[at..end], at, end, number),
               TokensFrom(word, t, i, index), Token(t[i..e], i, e, index),
               TokensFrom(word, t, e, index + 1), off, tokens);
  }

  lemma {:induction false} ShiftFirst(a: seq<Token>, x: Token, b: seq<Token>, y: Token, rest: seq<Token>, chars: nat,
      tokens: nat)
    requires a == [x] + Shift(rest, chars, tokens) && b == [y] + rest && x == ShiftToken(y, chars, tokens)
    ensures a == Shift(b, chars, tokens)
  {
    assert b[1..] == rest;
  }

  lemma {:induction false} SliceDrop(s: string, off: nat, i: nat, e: nat)
    requires off <= |s| && i <= e <= |s| - off
    ensures s[off + i..off + e] == s[off..][i..e]
  {
  }

  lemma {:induction false} RunEndTake(word: WordClass, s: string, end: nat, i: nat)
    requires i <= end <= |s| && RunEnd(word, s, i) <= end
    ensures RunEnd(word, s[..end], i) == RunEnd(word, s, i)
    decreases |s| - i
  {
    if i < end && word(s[i]) {
      RunEndTake(word, s, end, i + 1);
    }
  }

  /** Cutting the text at the end of a token keeps exactly the tokens up to that one. */
  lemma {:induction false} TokensTake(word: WordClass, s: string, i: nat, index: nat, n: nat)
    requires i <= |s| && n < |TokensFrom(word, s, i, index)|
    ensures var ts := TokensFrom(word, s, i, index);
            && i <= ts[n].end <= |s|
            && TokensFrom(word, s[..ts[n].end], i, index) == ts[..n + 1]
    decreases |s| - i
  {
    var ts := TokensFrom(word, s, i, index);
    var e := TokenEnd(word, s, i);
    if e == i {
      TokensTake(word, s, i + 1, index, n);
    } else {
      var rest := TokensFrom(word, s, e, index + 1);
      assert ts[1..] == rest;
      if n == 0 {
        RunEndTakeAt(word, s, e, i);
        assert s[..e][i..e] == s[i..e];
      } else {
        TokensTake(word, s, e, index + 1, n - 1);
        var end := rest[n - 1].end;
        RunEndTakeAt(word, s, end, i);
        assert s[..end][i..e] == s[i..e];
        assert ts[..n + 1] == [ts[0]] + rest[..n];
      }
    }
  }

  lemma {:induction false} RunEndTakeAt(word: WordClass, s: string, end: nat, i: nat)
    requires i < |s| && TokenEnd(word, s, i) <= end <= |s| && i < end
    ensures TokenEnd(word, s[..end], i) == TokenEnd(word, s, i)
  {
    if word(s[i]) {
      RunEndTake(word, s, end, i);
    }
  }

  /** Starting the scan at a token finds that token and the ones after it. */
  lemma {:induction false} TokensResume(word: WordClass, s: string, i: nat, index: nat, n: nat)
    requires i <= |s| && n < |TokensFrom(word, s, i, index)|
    ensures var ts := TokensFrom(word, s, i, index);
            ts[n].start <= |s| && TokensFrom(word, s, ts[n].start, index + n) == ts[n..]
    decreases |s| - i
  {
    var ts := TokensFrom(word, s, i, index);
    var e := TokenEnd(word, s, i);
    if e == i {
      TokensResume(word, s, i + 1, index, n);
    } else if n > 0 {
      var rest := TokensFrom(word, s, e, index + 1);
      assert ts[1..] == rest;
      TokensResume(word, s, e, index + 1, n - 1);
      assert ts[n..] == rest[n - 1..];
    }
  }

  /**
   * Retokenizing the text from the start of token `a` to the end of token `b - 1`
   * gives the tokens `a` to `b` of the whole text, shifted in position and number.
   */
  lemma {:induction false} RetokenizeSlice(word: WordClass, s: string, a: nat, b: nat)
    requires a < b <= |Tokenize(word, s)|
    ensures var ts := Tokenize(word, s);
            && ts[a].start <= ts[b - 1].end <= |s|
            && ts[a..b] == Shift(Tokenize(word, s[ts[a].start..ts[b - 1].end]), ts[a].start, a)
  {
    TokenizePrefix(word, s, b);
    var ts := Tokenize(word, s);
    var from, to := ts[a].start, ts[b - 1].end;
    var cut := s[..to];
    assert ts[..b][a] == ts[a];
    TokensResume(word, cut, 0, 0, a);
    TokensDrop(word, cut, cut[from..], from, 0, from, 0, a, a);
    assert cut[from..] == s[from..to];
    assert ts[..b][a..] == ts[a..b];
    TokenOrder(word, s, a, b);
  }

  lemma {:induction false} TokenizePrefix(word: WordClass, s: string, b: nat)
    requires 0 < b <= |Tokenize(word, s)|
    ensures var ts := Tokenize(word, s);
            ts[b - 1].end <= |s| && Tokenize(word, s[..ts[b - 1].end]) == ts[..b]
  {
    TokensTake(word, s, 0, 0, b - 1);
  }

  lemma {:induction false} TokenOrder(word: WordClass, s: string, a: nat, b: nat)
    requires a < b <= |Tokenize(word, s)|
    ensures var ts := Tokenize(word, s);
            && ts[a].start <= ts[b - 1].end <= |s|
            && (forall k :: 0 <= k < a ==> ts[k].end <= ts[a].start)
            && (forall k :: b <= k < |ts| ==> ts[b - 1].end <= ts[k].start)
  {
    hide Tokenize;
    Tokenization(word, s);
    var ts := Tokenize(word, s);
    assert Whole(word, s, ts[a]) && Whole(word, s, ts[b - 1]);
    assert a < b - 1 ==> ts[a].end <= ts[b - 1].start;
  }

  // ---------------------------------------------------------------- token range of a character span

  /** The indexes of the tokens that overlap the span, in token order. */
  function Overlapping(ts: seq<Token>, from: int, to: int): seq<nat> {
    if ts == [] then []
    else (if ts[0].end > from && ts[0].start < to then [ts[0].index] else []) + Overlapping(ts[1..], from, to)
  }

  function Least(xs: seq<nat>): nat
    requires xs != []
  {
    if |xs| == 1 then xs[0] else var m := Least(xs[1..]); if xs[0] < m then xs[0] else m
  }

  function Greatest(xs: seq<nat>): nat
    requires xs != []
  {
    if |xs| == 1 then xs[0] else var m := Greatest(xs[1..]); if xs[0] > m then xs[0] else m
  }

  lemma {:induction false} Extremes(xs: seq<nat>)
    requires xs != []
    ensures Least(xs) in xs && Greatest(xs) in xs
    ensures forall x :: x in xs ==> Least(xs) <= x <= Greatest(xs)
  {
    if |xs| > 1 {
      Extremes(xs[1..]);
      assert xs == [xs[0]] + xs[1..];
    }
  }

  /** `_token_range_for_char_span`. */
  function TokenRange(ts: seq<Token>, from: int, to: int): Option<(nat, nat)> {
    RangeOf(Overlapping(ts, from, to))
  }

  function RangeOf(at: seq<nat>): Option<(nat, nat)> {
    if at == [] then None else Some((Least(at), Greatest(at) + 1))
  }

  function ShiftRange(r: Option<(nat, nat)>, tokens: nat): Option<(nat, nat)> {
    match r case None => None case Some((a, b)) => Some((a + tokens, b + tokens))
  }

  function Add(xs: seq<nat>, n: nat): seq<nat> {
    if xs == [] then [] else [xs[0] + n] + Add(xs[1..], n)
  }

  lemma {:induction false} OverlappingConcat(a: seq<Token>, b: seq<Token>, from: int, to: int)
    ensures Overlapping(a + b, from, to) == Overlapping(a, from, to) + Overlapping(b, from, to)
  {
    if a == [] {
      assert a + b == b;
    } else {
      assert (a + b)[1..] == a[1..] + b;
      OverlappingConcat(a[1..], b, from, to);
    }
  }

  lemma {:induction false} OverlappingNone(ts: seq<Token>, from: int, to: int)
    requires forall k :: 0 <= k < |ts| ==> ts[k].end <= from || to <= ts[k].start
    ensures Overlapping(ts, from, to) == []
  {
    if ts != [] {
      assert ts[0].end <= from || to <= ts[0].start;
      OverlappingNone(ts[1..], from, to);
    }
  }

  lemma {:induction false} OverlappingShift(ts: seq<Token>, from: int, to: int, l: int, r: int, chars: nat, tokens: nat)
    requires l == from + chars && r == to + chars
    ensures Overlapping(Shift(ts, chars, tokens), l, r) == Add(Overlapping(ts, from, to), tokens)
  {
    if ts != [] {
      var first := if ts[0].end > from && ts[0].start < to then [ts[0].index] else [];
      OverlappingShift(ts[1..], from, to, l, r, chars, tokens);
      assert Shift(ts, chars, tokens)[1..] == Shift(ts[1..], chars, tokens);
      AddConcat(first, Overlapping(ts[1..], from, to), tokens);
    }
  }

  lemma {:induction false} AddConcat(a: seq<nat>, b: seq<nat>, n: nat)
    ensures Add(a + b, n) == Add(a, n) + Add(b, n)
  {
    if a == [] {
      assert a + b == b;
    } else {
      assert (a + b)[1..] == a[1..] + b;
      AddConcat(a[1..], b, n);
    }
  }

  lemma {:induction false} LeastAdd(xs: seq<nat>, n: nat)
    requires xs != []
    ensures Add(xs, n) != [] && Least(Add(xs, n)) == Least(xs) + n && Greatest(Add(xs, n)) == Greatest(xs) + n
  {
    if |xs| > 1 {
      LeastAdd(xs[1..], n);
      assert Add(xs, n)[1..] == Add(xs[1..], n);
    }
  }

  lemma {:induction false} RangeShift(xs: seq<nat>, n: nat)
    ensures RangeOf(Add(xs, n)) == ShiftRange(RangeOf(xs), n)
  {
    if xs != [] {
      LeastAdd(xs, n);
    }
  }

  /** What a token range is: from the first overlapping token to one past the last, none when nothing overlaps. */
  lemma {:induction false} TokenRangeIs(ts: seq<Token>, from: int, to: int)
    requires forall k :: 0 <= k < |ts| ==> ts[k].index == k
    ensures forall k :: 0 <= k < |ts| && ts[k].end > from && ts[k].start < to ==>
              && TokenRange(ts, from, to).Some?
              && TokenRange(ts, from, to).value.0 <= k < TokenRange(ts, from, to).value.1
    ensures TokenRange(ts, from, to).Some? ==>
              var (a, b) := TokenRange(ts, from, to).value;
              && a < b <= |ts| && ts[a].end > from && ts[a].start < to && ts[b - 1].end > from && ts[b - 1].start < to
  {
    OverlappingMembers(ts, from, to);
    if Overlapping(ts, from, to) != [] {
      Extremes(Overlapping(ts, from, to));
    }
  }

  lemma {:induction false} OverlappingMembers(ts: seq<Token>, from: int, to: int)
    ensures forall k :: 0 <= k < |ts| && ts[k].end > from && ts[k].start < to ==>
              ts[k].index in Overlapping(ts, from, to)
    ensures forall x :: x in Overlapping(ts, from, to) ==>
              exists k :: 0 <= k < |ts| && ts[k].index == x && ts[k].end > from && ts[k].start < to
  {
    if ts != [] {
      OverlappingMembers(ts[1..], from, to);
      forall k | 0 <= k < |ts| && ts[k].end > from && ts[k].start < to
        ensures ts[k].index in Overlapping(ts, from, to)
      {
        if k > 0 {
          assert ts[k] == ts[1..][k - 1];
        }
      }
      forall x | x in Overlapping(ts, from, to)
        ensures exists k :: 0 <= k < |ts| && ts[k].index == x && ts[k].end > from && ts[k].start < to
      {
        if x in Overlapping(ts[1..], from, to) {
          var k :| 0 <= k < |ts[1..]| && ts[1..][k].index == x && ts[1..][k].end > from && ts[1..][k].start < to;
          assert ts[k + 1] == ts[1..][k];
        }
      }
    }
  }

  /**
   * A span inside a slice that starts and ends at token boundaries gets, from the
   * slice's own tokens, the document's token range.
   */
  lemma {:induction false} SliceTokenRange(word: WordClass, s: string, a: nat, b: nat, from: nat, to: nat)
    requires a < b <= |Tokenize(word, s)|
    requires var ts := Tokenize(word, s);
             ts[a].start <= ts[b - 1].end <= |s| && from <= to <= ts[b - 1].end - ts[a].start
    ensures var ts := Tokenize(word, s);
            var off := ts[a].start;
            var local := Tokenize(word, s[off..ts[b - 1].end]);
            TokenRange(ts, off + from, off + to) == ShiftRange(TokenRange(local, from, to), a)
  {
    hide Tokenize, TokenRange, ShiftRange, Overlapping;
    var ts := Tokenize(word, s);
    var off := ts[a].start;
    RetokenizeSlice(word, s, a, b);
    SpanTokens(word, s, a, b, off + from, off + to);
    ShiftedRange(ts, ts[a..b], Tokenize(word, s[off..ts[b - 1].end]), off, a, from, to);
  }

  lemma {:induction false} ShiftedRange(ts: seq<Token>, part: seq<Token>, local: seq<Token>, off: nat, a: nat,
      from: int, to: int)
    requires part == Shift(local, off, a)
               && Overlapping(ts, off + from, off + to) == Overlapping(part, off + from, off + to)
    ensures TokenRange(ts, off + from, off + to) == ShiftRange(TokenRange(local, from, to), a)
  {
    OverlappingShift(local, from, to, off + from, off + to, off, a);
    RangeShift(Overlapping(local, from, to), a);
  }

  /** Only the tokens of a slice can overlap a span inside it. */
  lemma {:induction false} SpanTokens(word: WordClass, s: string, a: nat, b: nat, l: nat, r: nat)
    requires a < b <= |Tokenize(word, s)|
    requires var ts := Tokenize(word, s); ts[a].start <= l <= r <= ts[b - 1].end
    ensures var ts := Tokenize(word, s);
            Overlapping(ts, l, r) == Overlapping(ts[a..b], l, r)
  {
    hide Tokenize;
    var ts := Tokenize(word, s);
    TokenOrder(word, s, a, b);
    assert ts == ts[..a] + ts[a..b] + ts[b..];
    OverlappingConcat(ts[..a] + ts[a..b], ts[b..], l, r);
    OverlappingConcat(ts[..a], ts[a..b], l, r);
    OverlappingNone(ts[..a], l, r);
    OverlappingNone(ts[b..], l, r);
  }
}
