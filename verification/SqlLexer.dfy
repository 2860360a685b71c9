/**
 * Splitting an SQL script into statements at its top-level semicolons. The
 * scanner knows quotes, doubled quotes, dollar quotes and both kinds of comment.
 * `word` is Python's `isalnum() or '_'`, which decides what a dollar tag may hold.
 */
module SqlLexer {
  import opened Options
  import opened Text

  type WordClass = char -> bool

  /** What the proofs need of the word class: it holds no punctuation and no white space. */
  ghost predicate Alphabet(word: WordClass) {
    forall c :: word(c) ==> !Space(c) && c !in ";$-*/'\"?%"
  }

  datatype Mode = Plain | Single | Double | Dollar(tag: string) | Line | Block

  /** One step of the scanner: how many characters it takes, the mode after, and whether it is a cut. */
  datatype Move = Move(n: nat, mode: Mode, cut: bool)

  predicate ModeOk(word: WordClass, m: Mode) {
    m.Dollar? ==> |m.tag| >= 2 && forall i :: 0 <= i < |m.tag| ==> word(m.tag[i]) || m.tag[i] == '$'
  }

  /** The end of the run of word characters starting at `j`. */
  function TagEnd(word: WordClass, s: string, j: nat): (e: nat)
    requires j <= |s|
    ensures j <= e <= |s|
    ensures forall i :: j <= i < e ==> word(s[i])
    ensures e < |s| ==> !word(s[e])
    decreases |s| - j
  {
    if j < |s| && word(s[j]) then TagEnd(word, s, j + 1) else j
  }

  predicate Starts(s: string, a: char, b: char) {
    |s| >= 2 && s[0] == a && s[1] == b
  }

  function Lex(word: WordClass, s: string, m: Mode): (mv: Move)
    requires s != "" && ModeOk(word, m)
    ensures 1 <= mv.n <= |s| && ModeOk(word, mv.mode)
    ensures mv.cut ==> mv.n == 1 && s[0] == ';' && m.Plain? && mv.mode.Plain?
  {
    match m
    case Dollar(tag) => if tag <= s then Move(|tag|, Plain, false) else Move(1, m, false)
    case Line => Move(1, if s[0] == '\n' then Plain else Line, false)
    case Block => if Starts(s, '*', '/') then Move(2, Plain, false) else Move(1, Block, false)
    case Single =>
      if s[0] != '\'' then Move(1, Single, false)
      else if Starts(s, '\'', '\'') then Move(2, Single, false)
      else Move(1, Plain, false)
    case Double => Move(1, if s[0] == '"' then Plain else Double, false)
    case Plain =>
      if Starts(s, '-', '-') then Move(2, Line, false)
      else if Starts(s, '/', '*') then Move(2, Block, false)
      else if s[0] == '\'' then Move(1, Single, false)
      else if s[0] == '"' then Move(1, Double, false)
      else if s[0] == '$' then
        var j := TagEnd(word, s, 1);
        if j < |s| && s[j] == '$' then Move(j + 1, Dollar(s[..j + 1]), false) else Move(1, Plain, false)
      else Move(1, Plain, s[0] == ';')
  }

  /** The untrimmed pieces between top-level semicolons, `current` being what the first has collected. */
  function Pieces(word: WordClass, s: string, m: Mode, current: string): (ps: seq<string>)
    requires ModeOk(word, m)
    ensures ps != []
    decreases |s|
  {
    if s == "" then [current]
    else
      var mv := Lex(word, s, m);
      if mv.cut then [current] + Pieces(word, s[1..], Plain, "")
      else Pieces(word, s[mv.n..], mv.mode, current + s[..mv.n])
  }

  function Emit(piece: string): seq<string> {
    var t := Strip(piece);
    if t == "" then [] else [t]
  }

  function EmitAll(ps: seq<string>): seq<string> {
    if ps == [] then [] else Emit(ps[0]) + EmitAll(ps[1..])
  }

  function Split(word: WordClass, script: string): seq<string> {
    EmitAll(Pieces(word, script, Plain, ""))
  }

  // ---------------------------------------------------------------- the scanner as written

  function ModeOf(single: bool, double: bool, tag: Option<string>, line: bool, block: bool): Mode {
    if tag.Some? then Dollar(tag.value)
    else if line then Line
    else if block then Block
    else if single then Single
    else if double then Double
    else Plain
  }

  predicate FlagsOk(word: WordClass, single: bool, double: bool, tag: Option<string>, line: bool, block: bool) {
    && !(single && double) && !(line && block)
    && (line || block ==> !single && !double) && (tag.Some? ==> !single && !double && !line && !block)
    && ModeOk(word, ModeOf(single, double, tag, line, block))
  }

  /** One turn of the loop of `split_sql_script`: the flags and the index after the character at `i`. */
  method Turn(
    word: WordClass, script: string, i: nat, single: bool, double: bool, tag: Option<string>, line: bool, block: bool)
    returns (i': nat, single': bool, double': bool, tag': Option<string>, line': bool, block': bool, cut: bool)
    requires i < |script| && FlagsOk(word, single, double, tag, line, block)
    ensures FlagsOk(word, single', double', tag', line', block')
    ensures var mv := Lex(word, script[i..], ModeOf(single, double, tag, line, block));
            i' == i + mv.n && cut == mv.cut && ModeOf(single', double', tag', line', block') == mv.mode
  {
    i', single', double', tag', line', block', cut := i + 1, single, double, tag, line, block, false;
    var ch := script[i];
    var next := if i + 1 < |script| then Some(script[i + 1]) else None;
    if tag.Some? {
      if tag.value <= script[i..] {
        i', tag' := i + |tag.value|, None;
      }
    } else if line {
      line' := ch != '\n';
    } else if block {
      if ch == '*' && next == Some('/') {
        i', block' := i + 2, false;
      }
    } else if !single && !double && ch == '-' && next == Some('-') {
      i', line' := i + 2, true;
    } else if !single && !double && ch == '/' && next == Some('*') {
      i', block' := i + 2, true;
    } else if ch == '\'' && !double {
      if single && next == Some('\'') {
        i' := i + 2;
      } else {
        single' := !single;
      }
    } else if ch == '"' && !single {
      double' := !double;
    } else if !single && !double && ch == '$' {
      var j := FindTagEnd(word, script, i);
      if j < |script| && script[j] == '$' {
        tag', i' := Some(script[i..j + 1]), j + 1;
      }
    } else if ch == ';' && !single && !double {
      cut := true;
    }
  }

  method FindTagEnd(word: WordClass, script: string, i: nat) returns (j: nat)
    requires i < |script|
    ensures j == i + TagEnd(word, script[i..], 1)
  {
    j := i + 1;
    while j < |script| && word(script[j])
      invariant i + 1 <= j <= |script|
      invariant TagEnd(word, script[i..], 1) == TagEnd(word, script[i..], j - i)
    {
      j := j + 1;
    }
  }

  lemma {:induction false} PiecesStep(word: WordClass, script: string, i: nat, m: Mode, done: seq<string>,
      current: string)
    requires i < |script| && ModeOk(word, m)
    requires Pieces(word, script, Plain, "") == done + Pieces(word, script[i..], m, current)
    ensures var mv := Lex(word, script[i..], m);
            var next := i + mv.n;
            Pieces(word, script, Plain, "") ==
              if mv.cut then done + [current] + Pieces(word, script[next..], mv.mode, "")
              else done + Pieces(word, script[next..], mv.mode, current + script[i..next])
  {
    hide Pieces, Lex;
    var mv := Lex(word, script[i..], m);
    PiecesUnfold(word, script, i, m, current, mv);
    if mv.cut {
      Rebracket(done, current, Pieces(word, script[i + mv.n..], Plain, ""));
    }
  }

  lemma Rebracket(done: seq<string>, current: string, ps: seq<string>)
    ensures done + ([current] + ps) == done + [current] + ps
  {
  }

  lemma {:induction false} PiecesUnfold(word: WordClass, script: string, i: nat, m: Mode, current: string, mv: Move)
    requires i < |script| && ModeOk(word, m) && mv == Lex(word, script[i..], m)
    ensures Pieces(word, script[i..], m, current) ==
            if mv.cut then [current] + Pieces(word, script[i + mv.n..], Plain, "")
            else Pieces(word, script[i + mv.n..], mv.mode, current + script[i..i + mv.n])
  {
    var rest := script[i..];
    assert rest[mv.n..] == script[i + mv.n..];
    assert rest[..mv.n] == script[i..i + mv.n];
  }

  lemma {:induction false} EmitAllConcat(ps: seq<string>, qs: seq<string>)
    ensures EmitAll(ps + qs) == EmitAll(ps) + EmitAll(qs)
  {
    if ps == [] {
      assert ps + qs == qs;
    } else {
      assert (ps + qs)[1..] == ps[1..] + qs;
      EmitAllConcat(ps[1..], qs);
    }
  }

  lemma {:induction false} EmitAllPush(ps: seq<string>, p: string)
    ensures EmitAll(ps + [p]) == EmitAll(ps) + Emit(p)
  {
    EmitAllConcat(ps, [p]);
    assert EmitAll([p][1..]) == [];
  }

  /** A turn of the loop, with what it does to the pieces still to come. */
  method Advance(
    word: WordClass, script: string, i: nat, single: bool, double: bool, tag: Option<string>, line: bool, block: bool,
    ghost done: seq<string>, ghost current: string)
    returns (i': nat, single': bool, double': bool, tag': Option<string>, line': bool, block': bool, cut: bool)
    requires i < |script| && FlagsOk(word, single, double, tag, line, block)
    requires Pieces(word, script, Plain, "") ==
             done + Pieces(word, script[i..], ModeOf(single, double, tag, line, block), current)
    ensures i < i' <= |script| && FlagsOk(word, single', double', tag', line', block')
    ensures cut ==> Pieces(word, script, Plain, "") ==
                      done + [current] + Pieces(word, script[i'..], ModeOf(single', double', tag', line', block'), "")
    ensures !cut ==> Pieces(word, script, Plain, "") ==
                       done + Pieces(word, script[i'..], ModeOf(single', double', tag', line', block'),
                                     current + script[i..i'])
  {
    PiecesStep(word, script, i, ModeOf(single, double, tag, line, block), done, current);
    i', single', double', tag', line', block', cut := Turn(word, script, i, single, double, tag, line, block);
  }

  /** `split_sql_script`. */
  method SplitSqlScript(word: WordClass, script: string) returns (statements: seq<string>)
    ensures statements == Split(word, script)
  {
    statements := [];
    var current := "";
    var single, double, line, block, cut := false, false, false, false, false;
    var tag: Option<string> := None;
    var i := 0;
    ghost var done: seq<string> := [];
    while i < |script|
      invariant i <= |script| && FlagsOk(word, single, double, tag, line, block)
      invariant Pieces(word, script, Plain, "") ==
                done + Pieces(word, script[i..], ModeOf(single, double, tag, line, block), current)
      invariant statements == EmitAll(done)
    {
      var from := i;
      i, single, double, tag, line, block, cut :=
        Advance(word, script, i, single, double, tag, line, block, done, current);
      if cut {
        EmitAllPush(done, current);
        done, statements, current := done + [current], statements + Emit(current), "";
      } else {
        current := current + script[from..i];
      }
    }
    EmitAllPush(done, current);
    statements := statements + Emit(current);
  }
}
