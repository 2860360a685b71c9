/**
 * What splitting keeps and what it loses: the pieces joined by semicolons are the
 * script, every emitted statement splits to itself, and splitting undoes joining
 * exactly for statements whose quotes and comments are closed.
 */
module SqlRoundTrip {
  import opened Text
  import opened SqlLexer

  function Join(ps: seq<string>): string {
    if ps == [] then "" else if |ps| == 1 then ps[0] else ps[0] + ";" + Join(ps[1..])
  }

  /** Scanning `s` from mode `m` never reaches a top-level semicolon. */
  predicate Uncut(word: WordClass, s: string, m: Mode)
    requires ModeOk(word, m)
    decreases |s|
  {
    s == "" || (var mv := Lex(word, s, m); !mv.cut && Uncut(word, s[mv.n..], mv.mode))
  }

  /** The mode the scanner is in after `s`, the cuts aside. */
  function EndMode(word: WordClass, s: string, m: Mode): (e: Mode)
    requires ModeOk(word, m)
    ensures ModeOk(word, e)
    decreases |s|
  {
    if s == "" then m else var mv := Lex(word, s, m); EndMode(word, s[mv.n..], mv.mode)
  }

  // ---------------------------------------------------------------- nothing else is lost

  lemma {:induction false} JoinCons(p: string, ps: seq<string>)
    requires ps != []
    ensures Join([p] + ps) == p + ";" + Join(ps)
  {
    assert ([p] + ps)[1..] == ps;
  }

  lemma {:induction false} JoinOne(p: string)
    ensures Join([p]) == p
  {
  }

  lemma {:induction false} CutBetween(current: string, s: string)
    requires s != "" && s[0] == ';'
    ensures current + ";" + ("" + s[1..]) == current + s
  {
    assert s == ";" + s[1..];
  }

  lemma {:induction false} JoinPieces(word: WordClass, s: string, m: Mode, current: string)
    requires ModeOk(word, m)
    ensures Join(Pieces(word, s, m, current)) == current + s
    decreases |s|
  {
    hide Lex, Join;
    if s == "" {
      JoinOne(current);
    } else {
      var mv := Lex(word, s, m);
      if mv.cut {
        JoinPieces(word, s[1..], Plain, "");
        JoinCons(current, Pieces(word, s[1..], Plain, ""));
        CutBetween(current, s);
      } else {
        JoinPieces(word, s[mv.n..], mv.mode, current + s[..mv.n]);
        Assoc(current, s[..mv.n], s[mv.n..]);
        DropDrop(s, mv.n, 0);
      }
    }
  }

  // ---------------------------------------------------------------- a step looks no further than inert text

  /** A character that no pending lookahead is waiting for. */
  predicate Inert(word: WordClass, c: char) {
    !word(c) && c !in "-*/'$"
  }

  /** Text that begins with an inert character does not change the steps before it. */
  lemma {:induction false} StepBeforeInert(word: WordClass, s: string, tail: string, m: Mode)
    requires s != "" && ModeOk(word, m) && tail != "" && Inert(word, tail[0])
    ensures Lex(word, s + tail, m) == Lex(word, s, m)
  {
    var t := s + tail;
    assert t[..|s|] == s && t[|s|] == tail[0];
    if m.Dollar? {
      TagBeforeInert(word, s, tail, m.tag);
    } else if m.Plain? && s[0] == '$' {
      TagEndBeforeInert(word, s, tail, 1);
      var j := TagEnd(word, s, 1);
      assert j < |s| ==> t[..j + 1] == s[..j + 1];
    }
  }

  lemma {:induction false} TagBeforeInert(word: WordClass, s: string, tail: string, tag: string)
    requires tail != "" && Inert(word, tail[0]) && ModeOk(word, Dollar(tag))
    ensures tag <= s + tail <==> tag <= s
  {
    var t := s + tail;
    if |s| < |tag| <= |t| {
      assert tag[|s|] != t[|s|];
    }
    assert |tag| <= |s| ==> t[..|tag|] == s[..|tag|];
  }

  lemma {:induction false} TagEndBeforeInert(word: WordClass, s: string, tail: string, j: nat)
    requires j <= |s| && tail != "" && Inert(word, tail[0])
    ensures TagEnd(word, s + tail, j) == TagEnd(word, s, j)
    decreases |s| - j
  {
    if j < |s| && word(s[j]) {
      TagEndBeforeInert(word, s, tail, j + 1);
    }
  }

  /** Scanning text before an inert character reaches that character in the mode scanning the text alone ends in. */
  lemma {:induction false} PiecesThrough(word: WordClass, s: string, tail: string, m: Mode, current: string)
    requires ModeOk(word, m) && Uncut(word, s, m) && tail != "" && Inert(word, tail[0])
    ensures Pieces(word, s + tail, m, current) == Pieces(word, tail, EndMode(word, s, m), current + s)
    decreases |s|
  {
    hide Lex;
    if s == "" {
      assert s + tail == tail && current + s == current;
    } else {
      StepBeforeInert(word, s, tail, m);
      var mv := Lex(word, s, m);
      assert (s + tail)[mv.n..] == s[mv.n..] + tail && (s + tail)[..mv.n] == s[..mv.n];
      PiecesThrough(word, s[mv.n..], tail, mv.mode, current + s[..mv.n]);
      Assoc(current, s[..mv.n], s[mv.n..]);
      DropDrop(s, mv.n, 0);
    }
  }

  lemma {:induction false} PiecesOfUncut(word: WordClass, s: string, m: Mode, current: string)
    requires ModeOk(word, m) && Uncut(word, s, m)
    ensures Pieces(word, s, m, current) == [current + s]
    decreases |s|
  {
    hide Lex;
    if s == "" {
      assert current + s == current;
    } else {
      var mv := Lex(word, s, m);
      PiecesOfUncut(word, s[mv.n..], mv.mode, current + s[..mv.n]);
      Assoc(current, s[..mv.n], s[mv.n..]);
      DropDrop(s, mv.n, 0);
    }
  }

  // ---------------------------------------------------------------- every piece is uncut

  /** The part of `s` before its first top-level semicolon. */
  function FirstPiece(word: WordClass, s: string, m: Mode): (f: string)
    requires ModeOk(word, m)
    ensures f <= s
    decreases |s|
  {
    if s == "" then ""
    else
      var mv := Lex(word, s, m);
      if mv.cut then "" else s[..mv.n] + FirstPiece(word, s[mv.n..], mv.mode)
  }

  /** Inside the first piece the scanner steps as it does in the whole text. */
  lemma {:induction false} FirstPieceStep(word: WordClass, s: string, m: Mode)
    requires Alphabet(word) && ModeOk(word, m) && s != "" && !Lex(word, s, m).cut
    requires var mv := Lex(word, s, m);
             var rest := s[mv.n..];
             var g := FirstPiece(word, rest, mv.mode);
             g != rest ==> rest[|g|] == ';'
    ensures var mv := Lex(word, s, m);
            var rest := s[mv.n..];
            var g := FirstPiece(word, rest, mv.mode);
            var f := FirstPiece(word, s, m);
            f == s[..mv.n] + g && Lex(word, f, m) == mv && f[mv.n..] == g
  {
    hide Lex;
    var mv := Lex(word, s, m);
    var rest := s[mv.n..];
    var g := FirstPiece(word, rest, mv.mode);
    var f := s[..mv.n] + g;
    assert s == f + rest[|g|..];
    if g != rest {
      StepBeforeInert(word, f, rest[|g|..], m);
    } else {
      assert f == s;
    }
  }

  lemma {:induction false} FirstPieceUncut(word: WordClass, s: string, m: Mode)
    requires Alphabet(word) && ModeOk(word, m)
    ensures var f := FirstPiece(word, s, m);
            Uncut(word, f, m) && (f != s ==> s[|f|] == ';' && EndMode(word, f, m) == Plain)
    decreases |s|
  {
    hide Lex;
    if s != "" {
      var mv := Lex(word, s, m);
      if !mv.cut {
        FirstPieceUncut(word, s[mv.n..], mv.mode);
        FirstPieceStep(word, s, m);
        var g := FirstPiece(word, s[mv.n..], mv.mode);
        assert s == s[..mv.n] + s[mv.n..];
      }
    }
  }

  lemma {:induction false} FirstPieceIs(word: WordClass, s: string, m: Mode, current: string)
    requires Alphabet(word) && ModeOk(word, m)
    ensures var f := FirstPiece(word, s, m);
            var ps := Pieces(word, s, m, current);
            && ps[0] == current + f
            && ps[1..] == if f == s then [] else Pieces(word, s[|f| + 1..], Plain, "")
    decreases |s|
  {
    hide Lex;
    var f := FirstPiece(word, s, m);
    if s == "" {
      assert current + f == current;
    } else {
      var mv := Lex(word, s, m);
      if mv.cut {
        assert current + f == current;
        var ps := Pieces(word, s[1..], Plain, "");
        assert ([current] + ps)[1..] == ps;
      } else {
        FirstPieceIs(word, s[mv.n..], mv.mode, current + s[..mv.n]);
        FirstPieceShift(word, s, m, current);
      }
    }
  }

  /** Text of the rest of `s` put behind the first `n` characters is text of `s`. */
  lemma SameShift(s: string, n: nat, g: string, current: string)
    requires n <= |s| && g <= s[n..]
    ensures current + s[..n] + g == current + (s[..n] + g)
    ensures s[..n] + g == s <==> g == s[n..]
    ensures |g| < |s| - n ==> s[n..][|g| + 1..] == s[n + |g| + 1..]
  {
    Assoc(current, s[..n], g);
    if s[..n] + g == s {
      assert (s[..n] + g)[n..] == g;
    }
  }

  lemma {:induction false} FirstPieceShift(word: WordClass, s: string, m: Mode, current: string)
    requires ModeOk(word, m) && s != "" && !Lex(word, s, m).cut
    ensures var mv := Lex(word, s, m);
            var rest := s[mv.n..];
            var g := FirstPiece(word, rest, mv.mode);
            var f := FirstPiece(word, s, m);
            && current + s[..mv.n] + g == current + f
            && (f == s <==> g == rest) && |f| == mv.n + |g|
            && (g != rest ==> rest[|g| + 1..] == s[|f| + 1..])
  {
    hide Lex;
    var mv := Lex(word, s, m);
    var rest := s[mv.n..];
    var g := FirstPiece(word, rest, mv.mode);
    assert FirstPiece(word, s, m) == s[..mv.n] + g;
    hide FirstPiece, ModeOk;
    SameShift(s, mv.n, g, current);
  }

  lemma {:induction false} PiecesUncut(word: WordClass, s: string)
    requires Alphabet(word)
    ensures forall p :: p in Pieces(word, s, Plain, "") ==> Uncut(word, p, Plain)
    decreases |s|
  {
    hide Lex, Pieces, FirstPiece, Uncut, EndMode, Alphabet;
    FirstPieceIs(word, s, Plain, "");
    FirstPieceUncut(word, s, Plain);
    var f, ps := FirstPiece(word, s, Plain), Pieces(word, s, Plain, "");
    assert ps[0] == f && ps == [f] + ps[1..];
    if f != s {
      PiecesUncut(word, s[|f| + 1..]);
    }
  }

  // ---------------------------------------------------------------- trimming keeps a piece uncut

  lemma {:induction false} UncutPrefix(word: WordClass, s: string, tail: string, m: Mode)
    requires ModeOk(word, m) && Uncut(word, s + tail, m) && tail != "" && Inert(word, tail[0])
    ensures Uncut(word, s, m)
    decreases |s|
  {
    hide Lex;
    if s != "" {
      StepBeforeInert(word, s, tail, m);
      var mv := Lex(word, s, m);
      assert (s + tail)[mv.n..] == s[mv.n..] + tail;
      UncutPrefix(word, s[mv.n..], tail, mv.mode);
    }
  }

  lemma {:induction false} UncutAfterBlank(word: WordClass, blank: string, s: string)
    requires Blank(blank) && Uncut(word, blank + s, Plain)
    ensures Uncut(word, s, Plain)
    decreases |blank|
  {
    var t := blank + s;
    if blank == "" {
      assert t == s;
    } else {
      assert t[0] == blank[0] && Space(blank[0]);
      assert t[1..] == blank[1..] + s;
      assert Lex(word, t, Plain) == Move(1, Plain, false);
      UncutAfterBlank(word, blank[1..], s);
    }
  }

  lemma {:induction false} StripUncut(word: WordClass, p: string)
    requires Alphabet(word) && Uncut(word, p, Plain)
    ensures Uncut(word, Strip(p), Plain)
  {
    var left, right := StripSplits(p);
    StripEnds(word, left, Strip(p), right);
  }

  lemma {:induction false} StripEnds(word: WordClass, left: string, body: string, right: string)
    requires Alphabet(word) && Blank(left) && Blank(right) && Uncut(word, left + body + right, Plain)
    ensures Uncut(word, body, Plain)
  {
    Assoc(left, body, right);
    UncutAfterBlank(word, left, body + right);
    if right == "" {
      assert body + right == body;
    } else {
      assert Space(right[0]);
      UncutPrefix(word, body, right, Plain);
    }
  }

  // ---------------------------------------------------------------- main results

  lemma {:induction false} EmitAllFrom(ps: seq<string>)
    ensures forall t :: t in EmitAll(ps) ==> t != "" && Trimmed(t) && exists p :: p in ps && Strip(p) == t
  {
    if ps != [] {
      EmitAllFrom(ps[1..]);
      var left, right := StripSplits(ps[0]);
      forall t | t in EmitAll(ps) ensures t != "" && Trimmed(t) && exists p :: p in ps && Strip(p) == t {
        if t in Emit(ps[0]) {
          assert ps[0] in ps;
        } else {
          var p :| p in ps[1..] && Strip(p) == t;
          assert p in ps;
        }
      }
    }
  }

  /**
   * Splitting loses only top-level semicolons, edge white space and empty
   * statements: the pieces joined by semicolons are the script, none of them
   * holds a top-level semicolon, and the statements are the pieces trimmed, the
   * empty ones dropped.
   */
  lemma SplitLosesOnlySeparators(word: WordClass, script: string) returns (ps: seq<string>)
    requires Alphabet(word)
    ensures Join(ps) == script
    ensures forall p :: p in ps ==> Uncut(word, p, Plain)
    ensures Split(word, script) == EmitAll(ps)
    ensures forall t :: t in Split(word, script) ==> t != "" && Trimmed(t) && Uncut(word, t, Plain)
  {
    hide Pieces, Uncut, Strip, Trimmed;
    ps := Pieces(word, script, Plain, "");
    JoinPieces(word, script, Plain, "");
    PiecesUncut(word, script);
    EmitAllFrom(ps);
    forall t | t in EmitAll(ps) ensures Uncut(word, t, Plain) {
      var p :| p in ps && Strip(p) == t;
      StripUncut(word, p);
    }
  }

  lemma {:induction false} SplitOfUncut(word: WordClass, t: string)
    requires t != "" && Trimmed(t) && Uncut(word, t, Plain)
    ensures Split(word, t) == [t]
  {
    PiecesOfUncut(word, t, Plain, "");
    assert "" + t == t;
    EmitAllOne(t);
  }

  lemma {:induction false} EmitAllOne(t: string)
    requires t != "" && Trimmed(t)
    ensures EmitAll([t]) == [t]
  {
    StripOfTrimmed(t);
    assert EmitAll([t][1..]) == [];
  }

  /** Every emitted statement is a fixed point of splitting. */
  lemma StatementsAreFixedPoints(word: WordClass, script: string, t: string)
    requires Alphabet(word) && t in Split(word, script)
    ensures Split(word, t) == [t]
  {
    var ps := SplitLosesOnlySeparators(word, script);
    SplitOfUncut(word, t);
  }

  predicate Statements(ts: seq<string>) {
    forall i :: 0 <= i < |ts| ==> ts[i] != "" && Trimmed(ts[i])
  }

  /** Every statement is free of top-level semicolons, and all but the last close what they open. */
  predicate Closed(word: WordClass, ts: seq<string>) {
    && (forall i :: 0 <= i < |ts| ==> Uncut(word, ts[i], Plain))
    && (forall i :: 0 <= i < |ts| - 1 ==> EndMode(word, ts[i], Plain) == Plain)
  }

  lemma {:induction false} SplitAfterFirst(word: WordClass, a: string, rest: string)
    requires Alphabet(word) && a != "" && Trimmed(a) && Uncut(word, a, Plain)
    ensures EndMode(word, a, Plain) == Plain ==> Split(word, a + ";" + rest) == [a] + Split(word, rest)
    ensures EndMode(word, a, Plain) != Plain ==>
              Split(word, a + ";" + rest) != [] && Split(word, a + ";" + rest)[0] != a
  {
    var tail := ";" + rest;
    var e := EndMode(word, a, Plain);
    assert a + ";" + rest == a + tail;
    PiecesThrough(word, a, tail, Plain, "");
    assert "" + a == a;
    if e == Plain {
      assert tail[1..] == rest;
      var ps := Pieces(word, rest, Plain, "");
      assert Pieces(word, tail, Plain, a) == [a] + ps;
      assert ([a] + ps)[1..] == ps;
      StripOfTrimmed(a);
    } else {
      UnclosedSwallows(word, a, tail, e);
    }
  }

  /** A semicolon met in an open quote or comment stays in the statement. */
  lemma {:induction false} UnclosedSwallows(word: WordClass, a: string, tail: string, e: Mode)
    requires Alphabet(word) && a != "" && Trimmed(a)
    requires ModeOk(word, e) && e != Plain && tail != "" && tail[0] == ';'
    ensures EmitAll(Pieces(word, tail, e, a)) != [] && EmitAll(Pieces(word, tail, e, a))[0] != a
  {
    FirstPieceIs(word, tail, e, a);
    var f := FirstPiece(word, tail, e);
    assert Lex(word, tail, e).n == 1 && !Lex(word, tail, e).cut;
    assert f != "" && f[0] == ';';
    StripKeeps(a + f, |a|);
  }

  /**
   * Splitting undoes joining, for any trimmed non-empty statements, exactly when
   * none of them holds a top-level semicolon and each but the last is lexically
   * closed.
   */
  lemma {:induction false} SplitUndoesJoin(word: WordClass, ts: seq<string>)
    requires Alphabet(word) && Statements(ts)
    ensures Split(word, Join(ts)) == ts <==> Closed(word, ts)
    decreases |ts|
  {
    hide Split, Uncut, EndMode, Closed;
    if ts == [] {
      SplitOfEmpty(word);
      ClosedFew(word, ts);
    } else if |ts| == 1 {
      ClosedFew(word, ts);
      if Uncut(word, ts[0], Plain) {
        SplitOfUncut(word, ts[0]);
      }
      if Split(word, ts[0]) == ts {
        assert ts[0] in Split(word, ts[0]);
        var ps := SplitLosesOnlySeparators(word, ts[0]);
      }
    } else {
      var rest := Join(ts[1..]);
      var script := ts[0] + ";" + rest;
      SplitUndoesJoin(word, ts[1..]);
      if Split(word, script) == ts {
        assert ts[0] in Split(word, script);
        var ps := SplitLosesOnlySeparators(word, script);
      }
      if Uncut(word, ts[0], Plain) {
        SplitAfterFirst(word, ts[0], rest);
      }
      assert ts == [ts[0]] + ts[1..];
      ClosedCons(word, ts);
    }
  }

  lemma SplitOfEmpty(word: WordClass)
    ensures Split(word, "") == []
  {
    StripOfTrimmed("");
    assert [""][1..] == [];
  }

  lemma ClosedFew(word: WordClass, ts: seq<string>)
    requires |ts| <= 1
    ensures Closed(word, ts) <==> ts == [] || Uncut(word, ts[0], Plain)
  {
  }

  lemma ClosedCons(word: WordClass, ts: seq<string>)
    requires |ts| > 1
    ensures Closed(word, ts) <==>
            Uncut(word, ts[0], Plain) && EndMode(word, ts[0], Plain) == Plain && Closed(word, ts[1..])
  {
    assert forall i :: 1 <= i < |ts| ==> ts[i] == ts[1..][i - 1];
    if Closed(word, ts[1..]) {
      forall i | 1 <= i < |ts| ensures Uncut(word, ts[i], Plain) {
        assert Uncut(word, ts[1..][i - 1], Plain);
      }
      forall i | 1 <= i < |ts| - 1 ensures EndMode(word, ts[i], Plain) == Plain {
        assert EndMode(word, ts[1..][i - 1], Plain) == Plain;
      }
    }
  }
}
