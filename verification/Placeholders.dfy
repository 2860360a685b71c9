/**
 * Rewriting `?` placeholders to `%s` outside quotes. The scanner looks ahead for
 * doubled quotes; a plain automaton that toggles at every quote does the same.
 */
module Placeholders {
  import opened Text
  import opened SqlLexer

  /** The modes this scanner knows: it tracks quotes only. */
  predicate Quoting(m: Mode) {
    m.Plain? || m.Single? || m.Double?
  }

  /** `convert_qmark_placeholders` from mode `m` on, with its lookahead. */
  function Convert(s: string, m: Mode): string
    requires Quoting(m)
    decreases |s|
  {
    if s == "" then ""
    else if s[0] == '\'' && !m.Double? then
      if m.Single? && Starts(s, '\'', '\'') then "''" + Convert(s[2..], m)
      else "'" + Convert(s[1..], if m.Single? then Plain else Single)
    else if s[0] == '"' && !m.Single? then "\"" + Convert(s[1..], if m.Double? then Plain else Double)
    else if s[0] == '?' && m.Plain? then "%s" + Convert(s[1..], m)
    else [s[0]] + Convert(s[1..], m)
  }

  function QuoteMode(single: bool, double: bool): Mode {
    if single then Single else if double then Double else Plain
  }

  lemma {:induction false} ConvertStep(sql: string, i: nat, m: Mode, out: string)
    requires i < |sql| && Quoting(m)
    ensures var doubled := i + 1 < |sql| && m.Single? && sql[i] == '\'' && sql[i + 1] == '\'';
            out + Convert(sql[i..], m) ==
              if doubled then out + "''" + Convert(sql[i + 2..], m)
              else out + Out(sql[i], m) + Convert(sql[i + 1..], After(sql[i], m))
  {
    var rest := sql[i..];
    assert rest[1..] == sql[i + 1..];
    if i + 1 < |sql| && m.Single? && sql[i] == '\'' && sql[i + 1] == '\'' {
      assert rest[2..] == sql[i + 2..];
      Assoc(out, "''", Convert(sql[i + 2..], m));
    } else {
      Assoc(out, Out(sql[i], m), Convert(sql[i + 1..], After(sql[i], m)));
    }
  }

  /** `convert_qmark_placeholders`. */
  method ConvertQmarkPlaceholders(sql: string) returns (out: string)
    ensures out == Convert(sql, Plain)
  {
    out := "";
    var single, double := false, false;
    var i := 0;
    while i < |sql|
      invariant i <= |sql| && !(single && double)
      invariant Convert(sql, Plain) == out + Convert(sql[i..], QuoteMode(single, double))
    {
      ConvertStep(sql, i, QuoteMode(single, double), out);
      var ch := sql[i];
      if ch == '\'' && !double {
        if single && i + 1 < |sql| && sql[i + 1] == '\'' {
          out := out + "''";
          i := i + 2;
          continue;
        }
        out := out + [ch];
        single := !single;
      } else if ch == '"' && !single {
        out := out + [ch];
        double := !double;
      } else if ch == '?' && !single && !double {
        out := out + "%s";
      } else {
        out := out + [ch];
      }
      i := i + 1;
    }
  }

  // ---------------------------------------------------------------- the toggle automaton

  function After(c: char, m: Mode): (n: Mode)
    requires Quoting(m)
    ensures Quoting(n)
  {
    if c == '\'' && !m.Double? then (if m.Single? then Plain else Single)
    else if c == '"' && !m.Single? then (if m.Double? then Plain else Double)
    else m
  }

  function Out(c: char, m: Mode): string {
    if c == '?' && m.Plain? then "%s" else [c]
  }

  function Toggle(s: string, m: Mode): string
    requires Quoting(m)
  {
    if s == "" then "" else Out(s[0], m) + Toggle(s[1..], After(s[0], m))
  }

  function ToggleMode(s: string, m: Mode): (n: Mode)
    requires Quoting(m)
    ensures Quoting(n)
  {
    if s == "" then m else ToggleMode(s[1..], After(s[0], m))
  }

  /** The doubled-quote lookahead is not needed: toggling at every quote gives the same text. */
  lemma {:induction false} ConvertIsToggle(s: string, m: Mode)
    requires Quoting(m)
    ensures Convert(s, m) == Toggle(s, m)
    decreases |s|
  {
    if s == "" {
    } else if m.Single? && Starts(s, '\'', '\'') {
      ConvertIsToggle(s[2..], m);
      assert s[1..][1..] == s[2..];
      assert Toggle(s, m) == "'" + Toggle(s[1..], Plain);
      assert Toggle(s[1..], Plain) == "'" + Toggle(s[2..], m);
      Assoc("'", "'", Toggle(s[2..], m));
    } else {
      ConvertIsToggle(s[1..], After(s[0], m));
    }
  }

  lemma {:induction false} ToggleConcat(a: string, b: string, m: Mode)
    requires Quoting(m)
    ensures Toggle(a + b, m) == Toggle(a, m) + Toggle(b, ToggleMode(a, m))
    ensures ToggleMode(a + b, m) == ToggleMode(b, ToggleMode(a, m))
    decreases |a|
  {
    if a == "" {
      assert a + b == b;
    } else {
      assert (a + b)[1..] == a[1..] + b;
      ToggleConcat(a[1..], b, After(a[0], m));
      Assoc(Out(a[0], m), Toggle(a[1..], After(a[0], m)), Toggle(b, ToggleMode(a, m)));
    }
  }

  lemma {:induction false} ToggleTwice(s: string, m: Mode)
    requires Quoting(m)
    ensures Toggle(Toggle(s, m), m) == Toggle(s, m)
    ensures ToggleMode(Toggle(s, m), m) == ToggleMode(s, m)
  {
    if s != "" {
      var o := Out(s[0], m);
      ToggleTwice(s[1..], After(s[0], m));
      ToggleConcat(o, Toggle(s[1..], After(s[0], m)), m);
      OutTwice(s[0], m);
    }
  }

  lemma {:induction false} OutTwice(c: char, m: Mode)
    requires Quoting(m)
    ensures Toggle(Out(c, m), m) == Out(c, m) && ToggleMode(Out(c, m), m) == After(c, m)
  {
    var o := Out(c, m);
    assert o[1..] == if c == '?' && m.Plain? then "s" else "";
    assert "s"[1..] == "";
  }

  /** Rewriting a second time changes nothing. */
  lemma ConvertIdempotent(s: string)
    ensures Convert(Convert(s, Plain), Plain) == Convert(s, Plain)
  {
    ConvertIsToggle(s, Plain);
    ConvertIsToggle(Toggle(s, Plain), Plain);
    ToggleTwice(s, Plain);
  }

  // ---------------------------------------------------------------- trimming

  lemma {:induction false} ToggleBlank(s: string, m: Mode)
    requires Quoting(m) && Blank(s)
    ensures Toggle(s, m) == s && ToggleMode(s, m) == m
  {
    if s != "" {
      assert Space(s[0]);
      assert forall i :: 0 <= i < |s[1..]| ==> s[1..][i] == s[i + 1];
      ToggleBlank(s[1..], m);
    }
  }

  lemma {:induction false} ToggleTrimmed(s: string, m: Mode)
    requires Quoting(m) && Trimmed(s)
    ensures Trimmed(Toggle(s, m)) && (Toggle(s, m) == "" <==> s == "")
  {
    if s != "" {
      var init, last := s[..|s| - 1], s[|s| - 1..];
      assert s == init + last;
      ToggleConcat(init, last, m);
      assert last[1..] == "";
      assert Toggle(s, m)[0] == Out(s[0], m)[0];
    }
  }

  /** Rewriting keeps the white space at both ends. */
  lemma {:induction false} StripToggle(p: string, m: Mode)
    requires Quoting(m)
    ensures Strip(Toggle(p, m)) == Toggle(Strip(p), m) && (Toggle(Strip(p), m) == "" <==> Strip(p) == "")
  {
    var left, right := StripSplits(p);
    var body := Strip(p);
    ToggleConcat(left + body, right, m);
    ToggleConcat(left, body, m);
    ToggleBlank(left, m);
    ToggleBlank(right, ToggleMode(left + body, m));
    ToggleTrimmed(body, m);
    StripUnique(left, Toggle(body, m), right);
  }

  function ConvertAll(ts: seq<string>): (r: seq<string>)
    ensures |r| == |ts|
    ensures forall i :: 0 <= i < |ts| ==> r[i] == Convert(ts[i], Plain)
  {
    if ts == [] then [] else [Convert(ts[0], Plain)] + ConvertAll(ts[1..])
  }

  lemma {:induction false} EmitConverted(ps: seq<string>)
    ensures EmitAll(ConvertAll(ps)) == ConvertAll(EmitAll(ps))
  {
    if ps != [] {
      var p := ps[0];
      EmitConverted(ps[1..]);
      assert ConvertAll(ps)[1..] == ConvertAll(ps[1..]);
      ConvertIsToggle(p, Plain);
      ConvertIsToggle(Strip(p), Plain);
      StripToggle(p, Plain);
      ConvertAllConcat(Emit(p), EmitAll(ps[1..]));
      assert ConvertAll(Emit(p)) == Emit(Convert(p, Plain));
    }
  }

  lemma {:induction false} ConvertAllConcat(a: seq<string>, b: seq<string>)
    ensures ConvertAll(a + b) == ConvertAll(a) + ConvertAll(b)
  {
  }

  // ---------------------------------------------------------------- the splitter on the rewritten text

  /** The splitter's dollar tags begin with a dollar sign. */
  predicate Tagged(m: Mode) {
    m.Dollar? ==> m.tag != "" && m.tag[0] == '$'
  }

  /** The next output character tells whether the next input character is a given mark. */
  lemma {:induction false} HeadKept(s: string, g: Mode)
    requires Quoting(g) && s != ""
    ensures Toggle(s, g) != ""
    ensures Toggle(s, g)[0] == if s[0] == '?' && g.Plain? then '%' else s[0]
  {
  }

  lemma {:induction false} ToggleUnmarked(s: string, g: Mode)
    requires Quoting(g) && '?' !in s
    ensures Toggle(s, g) == s
  {
    if s != "" {
      assert s == [s[0]] + s[1..];
      ToggleUnmarked(s[1..], After(s[0], g));
    }
  }

  lemma {:induction false} TagEndKept(word: WordClass, s: string, j: nat, g: Mode)
    requires Alphabet(word) && Quoting(g) && j <= |s| && (forall i :: 0 <= i < j ==> s[i] == '$' || word(s[i]))
    ensures var c := Toggle(s, g);
            var e := TagEnd(word, s, j);
            && e <= |c| && c[..e] == s[..e] && TagEnd(word, c, j) == e
            && (e < |s| <==> e < |c|) && (e < |s| ==> (c[e] == '$' <==> s[e] == '$'))
  {
    var e := TagEnd(word, s, j);
    assert s == s[..e] + s[e..];
    ToggleConcat(s[..e], s[e..], g);
    assert forall i :: 0 <= i < e ==> s[i] == '$' || word(s[i]);
    ToggleUnmarked(s[..e], g);
    var c := Toggle(s, g);
    if e < |s| {
      HeadKept(s[e..], ToggleMode(s[..e], g));
      assert c[e] == Toggle(s[e..], ToggleMode(s[..e], g))[0];
    }
    TagEndIs(word, c, j, e);
  }

  lemma {:induction false} TagEndIs(word: WordClass, s: string, j: nat, e: nat)
    requires j <= e <= |s| && (forall i :: j <= i < e ==> word(s[i])) && (e < |s| ==> !word(s[e]))
    ensures TagEnd(word, s, j) == e
    decreases e - j
  {
    if j < e {
      TagEndIs(word, s, j + 1, e);
    }
  }

  /** Text without a placeholder begins the rewritten text exactly when it begins the text. */
  lemma {:induction false} PrefixKept(tag: string, s: string, g: Mode)
    requires Quoting(g) && '?' !in tag && '%' !in tag
    ensures tag <= Toggle(s, g) <==> tag <= s
  {
    if tag != "" && s != "" {
      HeadKept(s, g);
      if tag[0] == s[0] {
        assert Toggle(s, g) == [s[0]] + Toggle(s[1..], After(s[0], g));
        PrefixKept(tag[1..], s[1..], After(s[0], g));
        PrefixCons(tag, s);
        PrefixCons(tag, Toggle(s, g));
        assert Toggle(s, g)[1..] == Toggle(s[1..], After(s[0], g));
      }
    }
  }

  lemma PrefixCons(a: string, b: string)
    requires a != "" && b != "" && a[0] == b[0]
    ensures a <= b <==> a[1..] <= b[1..]
  {
    assert a == [a[0]] + a[1..] && b == [b[0]] + b[1..];
  }

  lemma TagHasNoMark(word: WordClass, m: Mode)
    requires Alphabet(word) && ModeOk(word, m) && m.Dollar?
    ensures '?' !in m.tag && '%' !in m.tag
  {
  }

  lemma TagKept(word: WordClass, s: string, g: Mode)
    requires Alphabet(word) && Quoting(g) && s != "" && s[0] == '$'
    ensures Toggle(s, g) != "" && Lex(word, Toggle(s, g), Plain) == Lex(word, s, Plain)
              && Tagged(Lex(word, s, Plain).mode)
  {
    var c, e := Toggle(s, g), TagEnd(word, s, 1);
    HeadKept(s, g);
    TagEndKept(word, s, 1, g);
    if e < |s| && s[e] == '$' {
      assert c[..e + 1] == c[..e] + [c[e]] && s[..e + 1] == s[..e] + [s[e]];
    }
  }

  /** The splitter makes the same step on the rewritten text, whatever its mode, unless it stands at a placeholder. */
  lemma {:induction false} StepKept(word: WordClass, s: string, m: Mode, g: Mode)
    requires Alphabet(word) && ModeOk(word, m) && Tagged(m) && Quoting(g) && s != "" && !(s[0] == '?' && g.Plain?)
    ensures Toggle(s, g) != "" && Lex(word, Toggle(s, g), m) == Lex(word, s, m) && Tagged(Lex(word, s, m).mode)
  {
    HeadKept(s, g);
    if m.Plain? && s[0] == '$' {
      TagKept(word, s, g);
    } else if m.Dollar? {
      hide Toggle;
      TagHasNoMark(word, m);
      PrefixKept(m.tag, s, g);
    } else {
      SecondKept(s, g);
      hide Toggle, TagEnd;
    }
  }

  /** Nor is the second character one a lookahead waits for, unless it was. */
  lemma SecondKept(s: string, g: Mode)
    requires Quoting(g) && s != "" && !(s[0] == '?' && g.Plain?)
    ensures |Toggle(s, g)| > 1 <==> |s| > 1
    ensures |s| > 1 ==> Toggle(s, g)[1] == if s[1] == '?' && After(s[0], g).Plain? then '%' else s[1]
  {
    if |s| > 1 {
      HeadKept(s[1..], After(s[0], g));
    } else {
      assert s[1..] == "";
    }
  }

  /** A step past more than one character takes no placeholder. */
  lemma {:induction false} StepUnmarked(word: WordClass, s: string, m: Mode)
    requires Alphabet(word) && ModeOk(word, m) && s != "" && Lex(word, s, m).n > 1
    ensures '?' !in s[..Lex(word, s, m).n]
  {
    var mv := Lex(word, s, m);
    if m.Dollar? {
      TagHasNoMark(word, m);
      assert s[..mv.n] == m.tag;
    } else if mv.n == 2 && !(m.Plain? && s[0] == '$') {
      assert s[0] in "-/*'" && s[1] in "-*/'";
    } else {
      assert forall i :: 1 <= i < mv.n - 1 ==> word(s[i]);
    }
  }

  /** What the splitter takes in one step is rewritten on its own, and left alone unless it is a placeholder. */
  lemma {:induction false} StepRewritten(word: WordClass, s: string, m: Mode, g: Mode)
    requires Alphabet(word) && ModeOk(word, m) && Quoting(g) && s != ""
    ensures var n := Lex(word, s, m).n;
            && Toggle(s, g) == Toggle(s[..n], g) + Toggle(s[n..], ToggleMode(s[..n], g))
            && (!(s[0] == '?' && g.Plain?) ==> Toggle(s[..n], g) == s[..n])
  {
    var n := Lex(word, s, m).n;
    assert s == s[..n] + s[n..];
    ToggleConcat(s[..n], s[n..], g);
    if n > 1 {
      StepUnmarked(word, s, m);
      ToggleUnmarked(s[..n], g);
    } else {
      assert s[..1] == [s[0]] && s[..1][1..] == "";
    }
  }

  lemma {:induction false} PiecesStepFrom(word: WordClass, s: string, m: Mode, current: string)
    requires s != "" && ModeOk(word, m)
    ensures var mv := Lex(word, s, m);
            Pieces(word, s, m, current) ==
              if mv.cut then [current] + Pieces(word, s[1..], Plain, "")
              else Pieces(word, s[mv.n..], mv.mode, current + s[..mv.n])
  {
  }

  /** Neither `?` nor `%s` means anything to the splitter, in any mode. */
  lemma {:induction false} PiecesMark(word: WordClass, t: string, m: Mode, current: string)
    requires Alphabet(word) && ModeOk(word, m) && Tagged(m)
    ensures Pieces(word, "?" + t, m, current) == Pieces(word, t, m, current + "?")
    ensures Pieces(word, "%s" + t, m, current) == Pieces(word, t, m, current + "%s")
  {
    hide Pieces;
    var q, c := "?" + t, "%s" + t;
    assert q[..1] == "?" && q[1..] == t;
    assert Lex(word, q, m) == Move(1, m, false);
    PiecesStepFrom(word, q, m, current);
    assert c[..1] == "%" && c[1..] == "s" + t && c[1..][..1] == "s" && c[1..][1..] == t;
    assert Lex(word, c, m) == Move(1, m, false);
    PiecesStepFrom(word, c, m, current);
    assert Lex(word, c[1..], m) == Move(1, m, false);
    PiecesStepFrom(word, c[1..], m, current + "%");
    Assoc(current, "%", "s");
    assert "%" + "s" == "%s";
  }

  /** The pieces rewritten one after another, the quote mode carried from each to the next. */
  function Rewritten(ps: seq<string>, g: Mode): seq<string>
    requires Quoting(g)
  {
    if ps == [] then [] else [Toggle(ps[0], g)] + Rewritten(ps[1..], ToggleMode(ps[0], g))
  }

  lemma RewrittenCons(p: string, ps: seq<string>, g: Mode)
    requires Quoting(g)
    ensures Rewritten([p] + ps, g) == [Toggle(p, g)] + Rewritten(ps, ToggleMode(p, g))
  {
    assert ([p] + ps)[1..] == ps;
  }

  /** Splitting the rewritten text gives the pieces of the text, rewritten with the quote mode carried over. */
  lemma {:induction false} PiecesRewritten(word: WordClass, s: string, m: Mode, current: string, g: Mode)
    requires Alphabet(word) && ModeOk(word, m) && Tagged(m) && Quoting(g)
    ensures Pieces(word, Toggle(s, ToggleMode(current, g)), m, Toggle(current, g))
              == Rewritten(Pieces(word, s, m, current), g)
    decreases |s|
  {
    hide Lex;
    var at := ToggleMode(current, g);
    if s == "" {
      RewrittenCons(current, [], g);
      assert [current] + [] == [current];
    } else if s[0] == '?' && at.Plain? {
      hide Pieces;
      assert s == "?" + s[1..] && Toggle(s, at) == "%s" + Toggle(s[1..], at);
      PiecesMark(word, s[1..], m, current);
      PiecesMark(word, Toggle(s[1..], at), m, Toggle(current, g));
      ToggleConcat(current, "?", g);
      assert "?"[1..] == "" && Toggle("?", Plain) == "%s";
      PiecesRewritten(word, s[1..], m, current + "?", g);
    } else {
      var mv := Lex(word, s, m);
      var x, rest, c := s[..mv.n], s[mv.n..], Toggle(s, at);
      StepRewritten(word, s, m, at);
      StepKept(word, s, m, at);
      PiecesStepFrom(word, s, m, current);
      PiecesStepFrom(word, c, m, Toggle(current, g));
      hide Pieces, Toggle;
      assert c[..mv.n] == x && c[mv.n..] == Toggle(rest, ToggleMode(x, at));
      if mv.cut {
        ToggleCut(x, at);
        PiecesRewritten(word, rest, Plain, "", at);
        ToggleNothing(at);
        RewrittenCons(current, Pieces(word, rest, Plain, ""), g);
      } else {
        ToggleConcat(current, x, g);
        PiecesRewritten(word, rest, mv.mode, current + x, g);
      }
    }
  }

  lemma ToggleCut(x: string, g: Mode)
    requires Quoting(g) && |x| == 1 && x[0] == ';'
    ensures ToggleMode(x, g) == g
  {
    assert x[1..] == "";
  }

  lemma ToggleNothing(g: Mode)
    requires Quoting(g)
    ensures Toggle("", g) == "" && ToggleMode("", g) == g
  {
  }

  // ---------------------------------------------------------------- when rewriting commutes with splitting

  /** At the placeholder at `i`, if there is one, the two modes the text may begin in agree on whether it is quoted. */
  predicate AgreeAt(p: string, i: nat, g: Mode, l: Mode)
    requires Quoting(g) && Quoting(l) && i < |p|
  {
    p[i] == '?' ==> (ToggleMode(p[..i], g).Plain? <==> ToggleMode(p[..i], l).Plain?)
  }

  ghost predicate AgreeIn(p: string, g: Mode, l: Mode)
    requires Quoting(g) && Quoting(l)
  {
    forall i :: 0 <= i < |p| ==> AgreeAt(p, i, g, l)
  }

  /**
   * At every `?` of every piece the quote toggle run from the script's start is Plain
   * exactly when the toggle restarted at the piece is; `g` is the former at the first piece.
   */
  ghost predicate Agree(ps: seq<string>, g: Mode)
    requires Quoting(g)
  {
    ps == [] || (AgreeIn(ps[0], g, Plain) && Agree(ps[1..], ToggleMode(ps[0], g)))
  }

  lemma AgreeCons(p: string, g: Mode, l: Mode)
    requires Quoting(g) && Quoting(l) && p != ""
    ensures AgreeIn(p, g, l) <==>
              (p[0] == '?' ==> (g.Plain? <==> l.Plain?)) && AgreeIn(p[1..], After(p[0], g), After(p[0], l))
  {
    var t := p[1..];
    assert AgreeAt(p, 0, g, l) <==> (p[0] == '?' ==> (g.Plain? <==> l.Plain?)) by {
      assert p[..0] == "";
    }
    forall i | 0 <= i < |t| ensures AgreeAt(t, i, After(p[0], g), After(p[0], l)) <==> AgreeAt(p, i + 1, g, l) {
      assert p[..i + 1][1..] == t[..i];
    }
    if AgreeIn(t, After(p[0], g), After(p[0], l)) && AgreeAt(p, 0, g, l) {
      forall i | 0 <= i < |p| ensures AgreeAt(p, i, g, l) {
        assert i > 0 ==> AgreeAt(t, i - 1, After(p[0], g), After(p[0], l));
      }
    }
    if AgreeIn(p, g, l) {
      forall i | 0 <= i < |t| ensures AgreeAt(t, i, After(p[0], g), After(p[0], l)) {
        assert AgreeAt(p, i + 1, g, l);
      }
    }
  }

  /** The two rewritings of a text are the same exactly when the modes agree at its placeholders. */
  lemma {:induction false} SameRewriting(p: string, g: Mode, l: Mode)
    requires Quoting(g) && Quoting(l)
    ensures Toggle(p, g) == Toggle(p, l) <==> AgreeIn(p, g, l)
  {
    if p != "" {
      HeadKept(p, g);
      HeadKept(p, l);
      AgreeCons(p, g, l);
      SameRewriting(p[1..], After(p[0], g), After(p[0], l));
      hide AgreeIn;
      var a, b := Out(p[0], g), Out(p[0], l);
      if p[0] == '?' ==> (g.Plain? <==> l.Plain?) {
        assert a == b;
        SameTail(a, Toggle(p[1..], After(p[0], g)), Toggle(p[1..], After(p[0], l)));
      }
    }
  }

  lemma SameTail<T>(a: seq<T>, x: seq<T>, y: seq<T>)
    ensures a + x == a + y <==> x == y
  {
    assert (a + x)[|a|..] == x && (a + y)[|a|..] == y;
  }

  /** Trimmed off the white space at its ends, too. */
  lemma {:induction false} SameTrimmed(p: string, g: Mode)
    requires Quoting(g)
    ensures Emit(Toggle(p, g)) == Emit(Toggle(p, Plain)) <==> AgreeIn(p, g, Plain)
    ensures |Emit(Toggle(p, g))| == |Emit(Toggle(p, Plain))|
  {
    hide AgreeIn, Strip;
    SameRewriting(p, g, Plain);
    StripToggle(p, g);
    StripToggle(p, Plain);
    var left, right := StripSplits(p);
    var body := Strip(p);
    ToggleConcat(left + body, right, g);
    ToggleConcat(left, body, g);
    ToggleConcat(left + body, right, Plain);
    ToggleConcat(left, body, Plain);
    ToggleBlank(left, g);
    ToggleBlank(left, Plain);
    ToggleBlank(right, ToggleMode(left + body, g));
    ToggleBlank(right, ToggleMode(left + body, Plain));
  }

  lemma SameSplit<T>(a: seq<T>, x: seq<T>, b: seq<T>, y: seq<T>)
    requires |a| == |b|
    ensures a + x == b + y <==> a == b && x == y
  {
    assert (a + x)[..|a|] == a && (b + y)[..|b|] == b && (a + x)[|a|..] == x && (b + y)[|b|..] == y;
  }

  lemma {:induction false} SamePieces(ps: seq<string>, g: Mode)
    requires Quoting(g)
    ensures EmitAll(Rewritten(ps, g)) == EmitAll(ConvertAll(ps)) <==> Agree(ps, g)
  {
    hide AgreeIn, Emit;
    if ps != [] {
      var p := ps[0];
      ConvertIsToggle(p, Plain);
      SameTrimmed(p, g);
      SamePieces(ps[1..], ToggleMode(p, g));
      assert Rewritten(ps, g)[1..] == Rewritten(ps[1..], ToggleMode(p, g))
        && ConvertAll(ps)[1..] == ConvertAll(ps[1..]);
      SameSplit(Emit(Toggle(p, g)), EmitAll(Rewritten(ps[1..], ToggleMode(p, g))), Emit(Toggle(p, Plain)),
        EmitAll(ConvertAll(ps[1..])));
    }
  }

  /**
   * Rewriting commutes with splitting exactly when at every placeholder the quotes counted
   * from the script's start say the same as those counted from the statement's start.
   */
  lemma ConvertCommutesIff(word: WordClass, script: string)
    requires Alphabet(word)
    ensures Split(word, Convert(script, Plain)) == ConvertAll(Split(word, script)) <==>
            Agree(Pieces(word, script, Plain, ""), Plain)
  {
    hide Agree, Toggle, ToggleMode, Pieces, EmitAll, Rewritten;
    ConvertIsToggle(script, Plain);
    ToggleNothing(Plain);
    PiecesRewritten(word, script, Plain, "", Plain);
    EmitConverted(Pieces(word, script, Plain, ""));
    SamePieces(Pieces(word, script, Plain, ""), Plain);
  }

  /** Every piece but the last has its quotes closed. */
  ghost predicate Balanced(ps: seq<string>) {
    forall k :: 0 <= k < |ps| - 1 ==> ToggleMode(ps[k], Plain) == Plain
  }

  lemma {:induction false} BalancedAgree(ps: seq<string>)
    requires Balanced(ps)
    ensures Agree(ps, Plain)
  {
    if ps != [] {
      assert forall i :: 0 <= i < |ps[0]| ==> AgreeAt(ps[0], i, Plain, Plain);
      if |ps| > 1 {
        assert forall k :: 0 <= k < |ps[1..]| ==> ps[1..][k] == ps[k + 1];
        BalancedAgree(ps[1..]);
      }
    }
  }

  /** The splitter, scanning `s` from `m`, meets no comment and no dollar quote. */
  predicate QuotesOnly(word: WordClass, s: string, m: Mode)
    requires Quoting(m)
    decreases |s|
  {
    s == "" || (var mv := Lex(word, s, m); Quoting(mv.mode) && QuotesOnly(word, s[mv.n..], mv.mode))
  }

  /** What the splitter takes in one step the automaton passes in one or two, to the same mode. */
  lemma {:induction false} StepIsToggle(word: WordClass, s: string, m: Mode)
    requires Quoting(m) && s != "" && Quoting(Lex(word, s, m).mode)
    ensures ToggleMode(s[..Lex(word, s, m).n], m) == Lex(word, s, m).mode
  {
    var mv := Lex(word, s, m);
    var x := s[..mv.n];
    assert x[1..] == s[1..mv.n];
    if mv.n == 2 {
      assert x[0] == '\'' && x[1] == '\'' && m == Single;
      assert x[1..] == "'" && "'"[1..] == "";
      assert ToggleMode("'", Plain) == Single;
    }
  }

  lemma {:induction false} QuotesOnlyBalanced(word: WordClass, s: string, m: Mode, current: string)
    requires Quoting(m) && QuotesOnly(word, s, m) && ToggleMode(current, Plain) == m
    ensures Balanced(Pieces(word, s, m, current))
    decreases |s|
  {
    hide Lex;
    if s != "" {
      var mv := Lex(word, s, m);
      StepIsToggle(word, s, m);
      ToggleConcat(current, s[..mv.n], Plain);
      if mv.cut {
        QuotesOnlyBalanced(word, s[1..], Plain, "");
      } else {
        QuotesOnlyBalanced(word, s[mv.n..], mv.mode, current + s[..mv.n]);
      }
    }
  }

  /** So it does on scripts in which the splitter meets no comment and no dollar quote. */
  lemma ConvertCommutesWithSplit(word: WordClass, script: string)
    requires Alphabet(word) && QuotesOnly(word, script, Plain)
    ensures Split(word, Convert(script, Plain)) == ConvertAll(Split(word, script))
  {
    QuotesOnlyBalanced(word, script, Plain, "");
    BalancedAgree(Pieces(word, script, Plain, ""));
    ConvertCommutesIff(word, script);
  }

  /**
   * With a comment in the script the two need not commute: the rewriter takes the
   * apostrophe in the comment for an opening quote and leaves the placeholder of
   * the next statement alone.
   */
  lemma CommentBreaksCommuting(word: WordClass)
    requires Alphabet(word)
    ensures var script := "--'\n;?";
            Split(word, Convert(script, Plain)) != ConvertAll(Split(word, script))
  {
    var ps := ["--'\n", "?"];
    PiecesOfComment(word);
    OpenQuote("--'\n");
    assert ps[1..] == ["?"] && "?"[..0] == "";
    assert !AgreeAt("?", 0, Single, Plain);
    assert !Agree(["?"], Single);
    ConvertCommutesIff(word, "--'\n;?");
  }

  lemma {:induction false} OpenQuote(s: string)
    requires s == "--'\n"
    ensures ToggleMode(s, Plain) == Single
  {
    assert s[1..] == "-'\n" && "-'\n"[1..] == "'\n" && "'\n"[1..] == "\n" && "\n"[1..] == "";
    assert ToggleMode("\n", Single) == Single;
    assert ToggleMode("'\n", Plain) == Single;
  }

  lemma {:induction false} PiecesOfComment(word: WordClass)
    ensures Pieces(word, "--'\n;?", Plain, "") == ["--'\n", "?"]
  {
    var s := "--'\n;?";
    assert Lex(word, s, Plain) == Move(2, Line, false) && s[2..] == "'\n;?" && s[..2] == "--";
    assert Lex(word, "'\n;?", Line) == Move(1, Line, false) && "'\n;?"[1..] == "\n;?" && "'\n;?"[..1] == "'";
    assert Lex(word, "\n;?", Line) == Move(1, Plain, false) && "\n;?"[1..] == ";?" && "\n;?"[..1] == "\n";
    assert Lex(word, ";?", Plain) == Move(1, Plain, true) && ";?"[1..] == "?";
    assert Lex(word, "?", Plain) == Move(1, Plain, false) && "?"[1..] == "" && "?"[..1] == "?";
    assert Pieces(word, "?", Plain, "") == Pieces(word, "", Plain, "" + "?") == ["?"] by {
      assert "" + "?" == "?";
    }
    PiecesStepFrom(word, ";?", Plain, "--'\n");
    assert ["--'\n"] + ["?"] == ["--'\n", "?"];
    PiecesStepFrom(word, "\n;?", Line, "--'");
    assert "--'" + "\n" == "--'\n";
    PiecesStepFrom(word, "'\n;?", Line, "--");
    assert "--" + "'" == "--'";
    PiecesStepFrom(word, s, Plain, "");
    assert "" + "--" == "--";
  }
}
