/**
 * `_sentence_spans`: the text cut at `(?<=[.!?])\s+|\n+`, trimmed, fragments shorter
 * than twelve characters dropped.
 */
module Sentences {
  import opened Text

  const MIN_SENTENCE := 12

  datatype Sentence = Sentence(text: string, start: nat, end: nat)

  predicate EndsSentence(c: char) {
    c == '.' || c == '!' || c == '?'
  }

  function SpaceEnd(text: string, i: nat): (e: nat)
    requires i <= |text|
    ensures i <= e <= |text|
    decreases |text| - i
  {
    if i < |text| && Space(text[i]) then SpaceEnd(text, i + 1) else i
  }

  function NewlineEnd(text: string, i: nat): (e: nat)
    requires i <= |text|
    ensures i <= e <= |text|
    decreases |text| - i
  {
    if i < |text| && text[i] == '\n' then NewlineEnd(text, i + 1) else i
  }

  /** The end of the match of the separator pattern at `i`, or `i` when there is none. */
  function BreakEnd(text: string, i: nat): (e: nat)
    requires i < |text|
    ensures i <= e <= |text|
  {
    if i > 0 && EndsSentence(text[i - 1]) && Space(text[i]) then SpaceEnd(text, i)
    else NewlineEnd(text, i)
  }

  /** The sentence of a fragment, if it is long enough. */
  function Piece(text: string, start: nat, end: nat): seq<Sentence>
    requires start <= end <= |text|
  {
    var fragment := text[start..end];
    var sentence := Strip(fragment);
    if |sentence| < MIN_SENTENCE then []
    else
      var left := |fragment| - |LStrip(fragment)|;
      var right := |RStrip(fragment)|;
      if start + right > start + left then [Sentence(sentence, start + left, start + right)] else []
  }

  function SentencesFrom(text: string, start: nat, i: nat): seq<Sentence>
    requires start <= i <= |text|
    decreases |text| - i
  {
    if i == |text| then Piece(text, start, i)
    else
      var e := BreakEnd(text, i);
      if e == i then SentencesFrom(text, start, i + 1)
      else Piece(text, start, i) + SentencesFrom(text, e, e)
  }

  /** `_sentence_spans`. */
  method SentenceSpans(text: string) returns (spans: seq<Sentence>)
    ensures spans == SentencesFrom(text, 0, 0)
  {
    hide BreakEnd, Piece;
    spans := [];
    var start, i := 0, 0;
    while i < |text|
      invariant 0 <= start <= i <= |text|
      invariant SentencesFrom(text, 0, 0) == spans + SentencesFrom(text, start, i)
      decreases |text| - i
    {
      var e := BreakEnd(text, i);
      if e == i {
        i := i + 1;
      } else {
        Assoc(spans, Piece(text, start, i), SentencesFrom(text, e, e));
        spans := spans + Piece(text, start, i);
        start, i := e, e;
      }
    }
    spans := spans + Piece(text, start, |text|);
  }

  // ---------------------------------------------------------------- what the spans are

  predicate Unbroken(text: string, a: nat, b: nat)
    requires b <= |text|
  {
    forall i :: a <= i < b ==> BreakEnd(text, i) == i
  }

  /** A trimmed stretch of the text, long enough, with no separator in it. */
  predicate IsSentence(text: string, s: Sentence) {
    && s.start < s.end <= |text| && s.text == text[s.start..s.end]
    && Trimmed(s.text) && |s.text| >= MIN_SENTENCE && Unbroken(text, s.start, s.end)
  }

  /** Where the text is not all white space, there is something between its blank ends. */
  lemma {:induction false} MiddleTrimmed(s: string)
    requires Strip(s) != ""
    ensures Front(s) < Back(s) && Trimmed(s[Front(s)..Back(s)])
  {
    assert LStrip(s) != "";
  }

  lemma {:induction false} StripIs(s: string)
    requires Strip(s) != ""
    ensures Front(s) < Back(s) && Strip(s) == s[Front(s)..Back(s)] && Trimmed(Strip(s))
  {
    hide Strip, Front, Back, Blank, Trimmed;
    MiddleTrimmed(s);
    BlankEnds(s);
    var f, b := Front(s), Back(s);
    assert s == s[..f] + s[f..b] + s[b..];
    StripUnique(s[..f], s[f..b], s[b..]);
  }

  lemma {:induction false} PieceIs(text: string, start: nat, end: nat)
    requires start <= end <= |text| && Unbroken(text, start, end)
    ensures var p := Piece(text, start, end);
            && (p == [] <==> |Strip(text[start..end])| < MIN_SENTENCE)
            && |p| <= 1
            && (p != [] ==> IsSentence(text, p[0]) && start <= p[0].start && p[0].end <= end)
            && (p != [] ==> Blank(text[start..p[0].start]) && Blank(text[p[0].end..end]))
  {
    hide Strip, Unbroken, Front, Back, Trimmed, Blank;
    var fragment := text[start..end];
    if |Strip(fragment)| >= MIN_SENTENCE {
      StripIs(fragment);
      var f, b := Front(fragment), Back(fragment);
      SliceSlice(text, start, end, f, b);
      UnbrokenPart(text, start, end, start + f, start + b);
      BlankEnds(fragment);
    }
  }

  lemma {:induction false} SliceSlice(text: string, start: nat, end: nat, f: nat, b: nat)
    requires start <= end <= |text| && f <= b <= end - start
    ensures text[start..end][f..b] == text[start + f..start + b]
    ensures text[start..end][..f] == text[start..start + f]
    ensures text[start..end][b..] == text[start + b..end]
  {
    var fragment := text[start..end];
    assert forall k :: 0 <= k < end - start ==> fragment[k] == text[start + k];
  }

  lemma {:induction false} UnbrokenPart(text: string, start: nat, end: nat, a: nat, b: nat)
    requires start <= a <= b <= end <= |text| && Unbroken(text, start, end)
    ensures Unbroken(text, a, b)
  {
  }

  lemma {:induction false} BlankEnds(s: string)
    ensures Blank(s[..Front(s)]) && Blank(s[Back(s)..])
  {
    assert forall i :: 0 <= i < |s[Back(s)..]| ==> s[Back(s)..][i] == s[Back(s) + i];
  }

  ghost predicate Good(text: string, spans: seq<Sentence>, start: nat) {
    && (forall k :: 0 <= k < |spans| ==> IsSentence(text, spans[k]) && start <= spans[k].start)
    && (forall j, k :: 0 <= j < k < |spans| ==> spans[j].end <= spans[k].start)
  }

  lemma {:induction false} GoodConcat(text: string, p: seq<Sentence>, rest: seq<Sentence>, start: nat, mid: nat)
    requires |p| <= 1 && start <= mid && Good(text, rest, mid)
    requires p != [] ==> IsSentence(text, p[0]) && start <= p[0].start && p[0].end <= mid
    ensures Good(text, p + rest, start)
  {
    hide IsSentence;
    var spans := p + rest;
    forall k | 0 <= k < |spans| ensures k >= |p| ==> spans[k] == rest[k - |p|] {
    }
  }

  lemma {:induction false} SentencesGood(text: string, start: nat, i: nat)
    requires start <= i <= |text| && Unbroken(text, start, i)
    ensures Good(text, SentencesFrom(text, start, i), start)
    decreases |text| - i
  {
    hide IsSentence, Piece;
    PieceIs(text, start, i);
    if i == |text| {
      GoodConcat(text, Piece(text, start, i), [], start, i);
    } else {
      var e := BreakEnd(text, i);
      if e == i {
        SentencesGood(text, start, i + 1);
      } else {
        SentencesGood(text, e, e);
        GoodConcat(text, Piece(text, start, i), SentencesFrom(text, e, e), start, e);
      }
    }
  }

  /** The spans are in order, do not overlap, and each is a trimmed unbroken stretch of the text. */
  lemma {:induction false} SentenceSpansAre(text: string)
    ensures Good(text, SentencesFrom(text, 0, 0), 0)
  {
    SentencesGood(text, 0, 0);
  }

  /** An unbroken fragment between separators, too short to be a sentence. */
  predicate Fragment(text: string, a: nat, b: nat) {
    && a <= b <= |text| && Unbroken(text, a, b) && |Strip(text[a..b])| < MIN_SENTENCE
    && (a == 0 || Space(text[a - 1])) && (b == |text| || BreakEnd(text, b) > b)
  }

  ghost predicate Covered(text: string, spans: seq<Sentence>, p: nat)
    requires p < |text|
  {
    || (exists k :: 0 <= k < |spans| && spans[k].start <= p < spans[k].end)
    || Space(text[p])
    || (exists a: nat, b: nat :: a <= p < b && Fragment(text, a, b))
  }

  lemma {:induction false} RunIsSpace(text: string, i: nat, p: nat)
    requires i <= |text|
    ensures i <= p < SpaceEnd(text, i) ==> Space(text[p])
    ensures i <= p < NewlineEnd(text, i) ==> Space(text[p])
    decreases |text| - i
  {
    if i < |text| && i < p {
      RunIsSpace(text, i + 1, p);
    }
  }

  lemma {:induction false} PieceCovers(text: string, start: nat, end: nat, p: nat)
    requires start <= p < end <= |text| && Unbroken(text, start, end)
    requires (start == 0 || Space(text[start - 1])) && (end == |text| || BreakEnd(text, end) > end)
    ensures Covered(text, Piece(text, start, end), p)
  {
    hide Piece, Strip, BreakEnd;
    PieceIs(text, start, end);
    var q := Piece(text, start, end);
    if q == [] {
      assert Fragment(text, start, end);
    } else if p < q[0].start {
      assert text[start..q[0].start][p - start] == text[p];
    } else if p >= q[0].end {
      assert text[q[0].end..end][p - q[0].end] == text[p];
    }
  }

  lemma {:induction false} CoveredConcat(text: string, a: seq<Sentence>, b: seq<Sentence>, p: nat)
    requires p < |text| && (Covered(text, a, p) || Covered(text, b, p))
    ensures Covered(text, a + b, p)
  {
    hide Fragment;
    var c := a + b;
    if k :| 0 <= k < |a| && a[k].start <= p < a[k].end {
      assert c[k] == a[k];
    } else if k :| 0 <= k < |b| && b[k].start <= p < b[k].end {
      assert c[|a| + k] == b[k];
    }
  }

  lemma {:induction false} SentencesCover(text: string, start: nat, i: nat, p: nat)
    requires start <= i <= |text| && Unbroken(text, start, i) && start <= p < |text|
    requires start == 0 || Space(text[start - 1])
    ensures Covered(text, SentencesFrom(text, start, i), p)
    decreases |text| - i
  {
    hide Piece, Covered;
    if i == |text| {
      PieceCovers(text, start, i, p);
    } else {
      var e := BreakEnd(text, i);
      if e == i {
        SentencesCover(text, start, i + 1, p);
      } else {
        if p < i {
          PieceCovers(text, start, i, p);
        } else if p < e {
          RunIsSpace(text, i, p);
          SpaceCovers(text, SentencesFrom(text, e, e), p);
        } else {
          RunIsSpace(text, i, e - 1);
          SentencesCover(text, e, e, p);
        }
        CoveredConcat(text, Piece(text, start, i), SentencesFrom(text, e, e), p);
      }
    }
  }

  lemma {:induction false} SpaceCovers(text: string, spans: seq<Sentence>, p: nat)
    requires p < |text| && Space(text[p])
    ensures Covered(text, spans, p)
  {
  }

  /** Only white space and fragments shorter than twelve characters are left out. */
  lemma {:induction false} NothingElseLeftOut(text: string, p: nat)
    requires p < |text|
    ensures Covered(text, SentencesFrom(text, 0, 0), p)
  {
    SentencesCover(text, 0, 0, p);
  }
}
