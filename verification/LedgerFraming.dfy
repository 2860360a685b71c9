/**
 * The bytes an event hash covers: each field in UTF-8, followed by the unit
 * separator 0x1F. Nothing escapes a separator inside a field, so the fields can
 * be read back exactly when they hold none.
 */
module LedgerFraming {

  type Byte = n: int | 0 <= n < 256

  const SEPARATOR: Byte := 0x1F

  /** One character in UTF-8. */
  function Utf8(c: char): (bytes: seq<Byte>)
    ensures bytes != []
  {
    var n := c as int;
    if n < 0x80 then [n]
    else if n < 0x800 then [0xC0 + n / 64, 0x80 + n % 64]
    else if n < 0x10000 then [0xE0 + n / 4096, 0x80 + n / 64 % 64, 0x80 + n % 64]
    else [0xF0 + n / 262144, 0x80 + n / 4096 % 64, 0x80 + n / 64 % 64, 0x80 + n % 64]
  }

  function Encode(s: string): seq<Byte> {
    if s == "" then [] else Utf8(s[0]) + Encode(s[1..])
  }

  /** `h.update(part); h.update(b"\x1f")` for every part in turn. */
  function Frame(parts: seq<string>): seq<Byte> {
    if parts == [] then [] else Encode(parts[0]) + [SEPARATOR] + Frame(parts[1..])
  }

  predicate Clean(s: string) {
    forall i :: 0 <= i < |s| ==> s[i] as int != 0x1F
  }

  predicate AllClean(parts: seq<string>) {
    forall i :: 0 <= i < |parts| ==> Clean(parts[i])
  }

  // ---------------------------------------------------------------- decoding one character

  /** How many bytes the character starting with `b` takes. */
  function Width(b: Byte): (w: nat)
    ensures 1 <= w <= 4
  {
    if b < 0xC0 then 1 else if b < 0xE0 then 2 else if b < 0xF0 then 3 else 4
  }

  lemma Utf8Width(c: char)
    ensures |Utf8(c)| == Width(Utf8(c)[0])
    ensures Utf8(c)[0] == 0x1F <==> c as int == 0x1F
    ensures forall i :: 1 <= i < |Utf8(c)| ==> Utf8(c)[i] >= 0x80
  {
  }

  /** The code point a UTF-8 sequence of one to four bytes stands for. */
  function CodePoint(x: seq<Byte>): int
    requires 1 <= |x| <= 4
  {
    var a: int := x[0];
    var b: int := if |x| > 1 then x[1] else 0;
    var c: int := if |x| > 2 then x[2] else 0;
    var d: int := if |x| > 3 then x[3] else 0;
    if |x| == 1 then a
    else if |x| == 2 then (a - 0xC0) * 64 + (b - 0x80)
    else if |x| == 3 then (a - 0xE0) * 4096 + (b - 0x80) * 64 + (c - 0x80)
    else (a - 0xF0) * 262144 + (b - 0x80) * 4096 + (c - 0x80) * 64 + (d - 0x80)
  }

  lemma Utf8Decodes(c: char)
    ensures CodePoint(Utf8(c)) == c as int
  {
    var n := c as int;
    assert n / 64 == n / 4096 * 64 + n / 64 % 64;
    assert n / 4096 == n / 262144 * 64 + n / 4096 % 64;
  }

  /** UTF-8 is a prefix code: the first character of a byte string is determined. */
  lemma Utf8Prefix(c: char, d: char, x: seq<Byte>, y: seq<Byte>)
    requires Utf8(c) + x == Utf8(d) + y
    ensures c == d && x == y
  {
    Utf8Width(c);
    Utf8Width(d);
    var a, b := Utf8(c), Utf8(d);
    assert (a + x)[0] == a[0] && (b + y)[0] == b[0];
    assert (a + x)[..|a|] == a && (b + y)[..|b|] == b;
    assert (a + x)[|a|..] == x && (b + y)[|b|..] == y;
    Utf8Decodes(c);
    Utf8Decodes(d);
  }

  // ---------------------------------------------------------------- reading fields back

  /** The number of separator bytes. */
  function Separators(bytes: seq<Byte>): nat {
    if bytes == [] then 0 else (if bytes[0] == SEPARATOR then 1 else 0) + Separators(bytes[1..])
  }

  function Marks(s: string): nat {
    if s == "" then 0 else (if s[0] as int == 0x1F then 1 else 0) + Marks(s[1..])
  }

  function AllMarks(parts: seq<string>): nat {
    if parts == [] then 0 else Marks(parts[0]) + AllMarks(parts[1..])
  }

  lemma {:induction false} SeparatorsAppend(x: seq<Byte>, y: seq<Byte>)
    ensures Separators(x + y) == Separators(x) + Separators(y)
  {
    if x == [] {
      assert x + y == y;
    } else {
      assert (x + y)[1..] == x[1..] + y;
      SeparatorsAppend(x[1..], y);
    }
  }

  lemma {:induction false} NoSeparators(x: seq<Byte>)
    requires forall i :: 0 <= i < |x| ==> x[i] != SEPARATOR
    ensures Separators(x) == 0
  {
    if x != [] {
      NoSeparators(x[1..]);
    }
  }

  lemma {:induction false} EncodeSeparators(s: string)
    ensures Separators(Encode(s)) == Marks(s)
  {
    if s != "" {
      EncodeSeparators(s[1..]);
      SeparatorsAppend(Utf8(s[0]), Encode(s[1..]));
      Utf8Width(s[0]);
      var u := Utf8(s[0]);
      NoSeparators(u[1..]);
    }
  }

  lemma {:induction false} FrameSeparators(parts: seq<string>)
    ensures Separators(Frame(parts)) == |parts| + AllMarks(parts)
  {
    if parts != [] {
      var e := Encode(parts[0]);
      SeparatorsAppend(e + [SEPARATOR], Frame(parts[1..]));
      SeparatorsAppend(e, [SEPARATOR]);
      EncodeSeparators(parts[0]);
      FrameSeparators(parts[1..]);
    }
  }

  lemma {:induction false} CleanIffNoMarks(s: string)
    ensures Clean(s) <==> Marks(s) == 0
  {
    if s != "" {
      CleanIffNoMarks(s[1..]);
      assert forall i :: 1 <= i < |s| ==> s[i] == s[1..][i - 1];
    }
  }

  lemma {:induction false} AllCleanIffNoMarks(parts: seq<string>)
    ensures AllClean(parts) <==> AllMarks(parts) == 0
  {
    if parts != [] {
      CleanIffNoMarks(parts[0]);
      AllCleanIffNoMarks(parts[1..]);
      assert forall i :: 1 <= i < |parts| ==> parts[i] == parts[1..][i - 1];
    }
  }

  lemma FieldHead(p: string, x: seq<Byte>)
    requires Clean(p)
    ensures var bytes := Encode(p) + [SEPARATOR] + x;
            bytes != [] && (bytes[0] == SEPARATOR <==> p == "")
  {
    if p != "" {
      Utf8Width(p[0]);
      assert (Encode(p) + [SEPARATOR] + x)[0] == Utf8(p[0])[0];
    }
  }

  lemma FieldPeel(p: string, x: seq<Byte>)
    requires p != ""
    ensures Encode(p) + [SEPARATOR] + x == Utf8(p[0]) + (Encode(p[1..]) + [SEPARATOR] + x)
  {
  }

  /** A separator-free field at the front is recoverable whatever follows it. */
  lemma {:induction false} FirstField(p: string, q: string, x: seq<Byte>, y: seq<Byte>)
    requires Clean(p) && Clean(q)
    requires Encode(p) + [SEPARATOR] + x == Encode(q) + [SEPARATOR] + y
    ensures p == q && x == y
  {
    var l, r := Encode(p) + [SEPARATOR] + x, Encode(q) + [SEPARATOR] + y;
    FieldHead(p, x);
    FieldHead(q, y);
    assert p == "" <==> q == "";
    if p == "" {
      assert l == [SEPARATOR] + x && r == [SEPARATOR] + y;
      assert l[1..] == x && r[1..] == y;
    } else {
      var s, t := Encode(p[1..]) + [SEPARATOR] + x, Encode(q[1..]) + [SEPARATOR] + y;
      FieldPeel(p, x);
      FieldPeel(q, y);
      Utf8Prefix(p[0], q[0], s, t);
      FirstField(p[1..], q[1..], x, y);
      assert p == [p[0]] + p[1..] && q == [q[0]] + q[1..];
    }
  }

  lemma {:induction false} CleanFramesInjective(ps: seq<string>, qs: seq<string>)
    requires AllClean(ps) && AllClean(qs) && Frame(ps) == Frame(qs)
    ensures ps == qs
  {
    if ps != [] && qs != [] {
      FirstField(ps[0], qs[0], Frame(ps[1..]), Frame(qs[1..]));
      CleanFramesInjective(ps[1..], qs[1..]);
      assert ps == [ps[0]] + ps[1..] && qs == [qs[0]] + qs[1..];
    }
  }

  /**
   * Separator-free fields are recoverable from the bytes among all frames of the
   * same number of fields: it is enough that one of the two sides is clean,
   * because the separators are counted.
   */
  lemma FrameRecovers(ps: seq<string>, qs: seq<string>)
    requires |ps| == |qs| && AllClean(ps)
    ensures Frame(ps) == Frame(qs) <==> ps == qs
  {
    if Frame(ps) == Frame(qs) {
      FrameSeparators(ps);
      FrameSeparators(qs);
      AllCleanIffNoMarks(ps);
      AllCleanIffNoMarks(qs);
      CleanFramesInjective(ps, qs);
    }
  }

  /** All fields but one are free of the separator. */
  predicate CleanBut(parts: seq<string>, j: nat) {
    forall i :: 0 <= i < |parts| && i != j ==> Clean(parts[i])
  }

  lemma {:induction false} MarksBut(parts: seq<string>, j: nat)
    requires j < |parts|
    ensures AllMarks(parts) >= Marks(parts[j])
    ensures AllMarks(parts) == Marks(parts[j]) <==> CleanBut(parts, j)
  {
    hide Clean, Marks;
    var rest := parts[1..];
    assert forall i :: 1 <= i < |parts| ==> parts[i] == rest[i - 1];
    CleanIffNoMarks(parts[0]);
    if j == 0 {
      AllCleanIffNoMarks(rest);
    } else {
      MarksBut(rest, j - 1);
      if CleanBut(rest, j - 1) && Clean(parts[0]) {
        forall i | 0 <= i < |parts| && i != j ensures Clean(parts[i]) {
          assert i > 0 ==> Clean(rest[i - 1]);
        }
      }
      if CleanBut(parts, j) {
        forall i | 0 <= i < |rest| && i != j - 1 ensures Clean(rest[i]) {
          assert Clean(parts[i + 1]);
        }
      }
    }
  }

  lemma {:induction false} SameBut(ps: seq<string>, qs: seq<string>, j: nat)
    requires |ps| == |qs| && j < |ps| && CleanBut(ps, j) && CleanBut(qs, j) && ps[j] == qs[j] && Frame(ps) == Frame(qs)
    ensures ps == qs
  {
    hide Encode, Clean;
    assert ps == [ps[0]] + ps[1..] && qs == [qs[0]] + qs[1..];
    var head := Encode(ps[0]) + [SEPARATOR];
    if j == 0 {
      assert (head + Frame(ps[1..]))[|head|..] == Frame(ps[1..]) && (head + Frame(qs[1..]))[|head|..] == Frame(qs[1..]);
      CleanFramesInjective(ps[1..], qs[1..]);
    } else {
      FirstField(ps[0], qs[0], Frame(ps[1..]), Frame(qs[1..]));
      SameBut(ps[1..], qs[1..], j - 1);
    }
  }

  /** A field known from elsewhere may hold anything: the others are recoverable when they are clean. */
  lemma FrameRecoversBut(ps: seq<string>, qs: seq<string>, j: nat)
    requires |ps| == |qs| && j < |ps| && CleanBut(ps, j) && ps[j] == qs[j]
    ensures Frame(ps) == Frame(qs) <==> ps == qs
  {
    hide CleanBut, Frame, Marks;
    if Frame(ps) == Frame(qs) {
      FrameSeparators(ps);
      FrameSeparators(qs);
      MarksBut(ps, j);
      MarksBut(qs, j);
      SameBut(ps, qs, j);
    }
  }

  // ---------------------------------------------------------------- what a separator in a field does

  const MARK := "\U{001F}"

  /** Moving a separator across a field boundary leaves the hashed bytes alone. */
  lemma FrameMergesFields(p: string, q: string, r: string)
    ensures Frame([p + MARK + q, r]) == Frame([p, q + MARK + r])
  {
    EncodeAround(p, q);
    EncodeAround(q, r);
    FrameOfTwo(p + MARK + q, r);
    FrameOfTwo(p, q + MARK + r);
  }

  lemma {:induction false} FrameAppend(ps: seq<string>, qs: seq<string>)
    ensures Frame(ps + qs) == Frame(ps) + Frame(qs)
  {
    if ps == [] {
      assert ps + qs == qs;
    } else {
      assert (ps + qs)[1..] == ps[1..] + qs;
      FrameAppend(ps[1..], qs);
    }
  }

  /** Two neighbours replaced by two with the same bytes. */
  lemma FramePair(ps: seq<string>, i: nat, x: string, y: string)
    requires i + 1 < |ps| && Frame([ps[i], ps[i + 1]]) == Frame([x, y])
    ensures Frame(ps[i := x][i + 1 := y]) == Frame(ps)
  {
    hide Frame;
    var head, tail := ps[..i], ps[i + 2..];
    assert ps == head + [ps[i], ps[i + 1]] + tail && ps[i := x][i + 1 := y] == head + [x, y] + tail;
    FrameAppend(head + [ps[i], ps[i + 1]], tail);
    FrameAppend(head, [ps[i], ps[i + 1]]);
    FrameAppend(head + [x, y], tail);
    FrameAppend(head, [x, y]);
  }

  lemma {:induction false} MarkIn(s: string) returns (a: string, b: string)
    requires !Clean(s)
    ensures s == a + MARK + b
  {
    var i :| 0 <= i < |s| && s[i] as int == 0x1F;
    a, b := s[..i], s[i + 1..];
    assert s[i] == MARK[0];
  }

  /** The text after a separator in field `i` moved into the next field. */
  lemma ShiftRight(ps: seq<string>, i: nat) returns (qs: seq<string>)
    requires i + 1 < |ps| && !Clean(ps[i])
    ensures |qs| == |ps| && qs != ps && Frame(qs) == Frame(ps)
    ensures forall k :: 0 <= k < |ps| && k != i && k != i + 1 ==> qs[k] == ps[k]
  {
    var a, b := MarkIn(ps[i]);
    FrameMergesFields(a, b, ps[i + 1]);
    FramePair(ps, i, a, b + MARK + ps[i + 1]);
    qs := ps[i := a][i + 1 := b + MARK + ps[i + 1]];
    assert |qs[i]| < |ps[i]|;
  }

  /** The text before a separator in field `i + 1` moved into the field before. */
  lemma ShiftLeft(ps: seq<string>, i: nat) returns (qs: seq<string>)
    requires i + 1 < |ps| && !Clean(ps[i + 1])
    ensures |qs| == |ps| && qs != ps && Frame(qs) == Frame(ps)
    ensures forall k :: 0 <= k < |ps| && k != i && k != i + 1 ==> qs[k] == ps[k]
  {
    var a, b := MarkIn(ps[i + 1]);
    FrameMergesFields(ps[i], a, b);
    FramePair(ps, i, ps[i] + MARK + a, b);
    qs := ps[i := ps[i] + MARK + a][i + 1 := b];
    assert |qs[i + 1]| < |ps[i + 1]|;
  }

  /** Two or more fields are recoverable from their bytes exactly when none holds a separator. */
  lemma RecoverableIff(ps: seq<string>)
    requires |ps| >= 2
    ensures AllClean(ps) <==> forall qs :: |qs| == |ps| && Frame(qs) == Frame(ps) ==> qs == ps
  {
    if AllClean(ps) {
      forall qs | |qs| == |ps| && Frame(qs) == Frame(ps) ensures qs == ps {
        FrameRecovers(ps, qs);
      }
    } else {
      var i :| 0 <= i < |ps| && !Clean(ps[i]);
      var qs;
      if i + 1 < |ps| {
        qs := ShiftRight(ps, i);
      } else {
        qs := ShiftLeft(ps, i - 1);
      }
    }
  }

  lemma EncodeAround(p: string, q: string)
    ensures Encode(p + MARK + q) == Encode(p) + [SEPARATOR] + Encode(q)
  {
    var u := MARK;
    EncodeAppend(p + u, q);
    EncodeAppend(p, u);
    assert u[1..] == "";
    assert Encode(u) == Utf8(u[0]) + Encode("");
  }

  lemma FrameOfTwo(a: string, b: string)
    ensures Frame([a, b]) == Encode(a) + [SEPARATOR] + (Encode(b) + [SEPARATOR])
  {
    assert [a, b][1..] == [b] && [b][1..] == [];
    assert Frame([b]) == Encode(b) + [SEPARATOR] + [];
  }

  lemma {:induction false} EncodeAppend(a: string, b: string)
    ensures Encode(a + b) == Encode(a) + Encode(b)
  {
    if a == "" {
      assert a + b == b;
    } else {
      assert (a + b)[1..] == a[1..] + b;
      EncodeAppend(a[1..], b);
    }
  }
}
