/**
 * UTC datetimes as `datetime.now(timezone.utc).isoformat()` prints them. The
 * ledger keeps them as text and orders rows by that text, so printing has to
 * agree with time order although a zero microsecond part is left out.
 */
module Timestamps {
  import opened Options
  import opened Text

  datatype DateTime = DateTime(year: nat, month: nat, day: nat, hour: nat, minute: nat, second: nat, micro: nat)

  predicate Leap(year: nat) {
    year % 4 == 0 && (year % 100 != 0 || year % 400 == 0)
  }

  function DaysIn(year: nat, month: nat): (n: nat)
    ensures 28 <= n <= 31
  {
    if month == 2 then (if Leap(year) then 29 else 28)
    else if month in {4, 6, 9, 11} then 30
    else 31
  }

  /** What a Python `datetime` can hold. */
  predicate Valid(d: DateTime) {
    && 1 <= d.year <= 9999 && 1 <= d.month <= 12 && 1 <= d.day <= DaysIn(d.year, d.month)
    && d.hour < 24 && d.minute < 60 && d.second < 60 && d.micro < 1_000_000
  }

  /** `datetime.max`. */
  const LATEST := DateTime(9999, 12, 31, 23, 59, 59, 999_999)

  /** Time order between UTC datetimes. */
  predicate Before(a: DateTime, b: DateTime) {
    if a.year != b.year then a.year < b.year
    else if a.month != b.month then a.month < b.month
    else if a.day != b.day then a.day < b.day
    else if a.hour != b.hour then a.hour < b.hour
    else if a.minute != b.minute then a.minute < b.minute
    else if a.second != b.second then a.second < b.second
    else a.micro < b.micro
  }

  // ---------------------------------------------------------------- adding a microsecond

  /** `d + timedelta(microseconds=1)`; absent where Python raises OverflowError. */
  function Tick(d: DateTime): Option<DateTime> {
    if d.micro < 999_999 then Some(d.(micro := d.micro + 1))
    else if d.second < 59 then Some(d.(second := d.second + 1, micro := 0))
    else if d.minute < 59 then Some(d.(minute := d.minute + 1, second := 0, micro := 0))
    else if d.hour < 23 then Some(d.(hour := d.hour + 1, minute := 0, second := 0, micro := 0))
    else if d.day < DaysIn(d.year, d.month) then Some(DateTime(d.year, d.month, d.day + 1, 0, 0, 0, 0))
    else if d.month < 12 then Some(DateTime(d.year, d.month + 1, 1, 0, 0, 0, 0))
    else if d.year < 9999 then Some(DateTime(d.year + 1, 1, 1, 0, 0, 0, 0))
    else None
  }

  /**
   * A tick is the very next instant: later, with no representable instant in
   * between, and it is missing exactly at `datetime.max`.
   */
  lemma TickIsNext(d: DateTime, other: DateTime)
    requires Valid(d) && Valid(other)
    ensures Tick(d).None? <==> d == LATEST
    ensures Tick(d).Some? ==>
              Valid(Tick(d).value) && Before(d, Tick(d).value) && !(Before(d, other) && Before(other, Tick(d).value))
  {
  }

  // ---------------------------------------------------------------- printing

  function Power10(w: nat): (p: nat)
    ensures p > 0
  {
    if w == 0 then 1 else 10 * Power10(w - 1)
  }

  function Digit(n: nat): char
    requires n < 10
  {
    '0' + n as char
  }

  /** `n` in exactly `w` decimal digits. */
  function Pad(n: nat, w: nat): (s: string)
    ensures |s| == w
  {
    if w == 0 then "" else Pad(n / 10, w - 1) + [Digit(n % 10)]
  }

  lemma {:induction false} PadOrder(n: nat, m: nat, w: nat)
    requires n < Power10(w) && m < Power10(w)
    ensures Less(Pad(n, w), Pad(m, w)) <==> n < m
    ensures Pad(n, w) == Pad(m, w) <==> n == m
  {
    if w > 0 {
      PadOrder(n / 10, m / 10, w - 1);
      var x, y := Pad(n / 10, w - 1), Pad(m / 10, w - 1);
      LessAppend(x, y, [Digit(n % 10)], [Digit(m % 10)]);
      assert Pad(n, w)[..w - 1] == x && Pad(m, w)[..w - 1] == y;
      assert Pad(n, w)[w - 1] == Digit(n % 10) && Pad(m, w)[w - 1] == Digit(m % 10);
    }
  }

  /** The part of the text down to the seconds. */
  function PrintSeconds(d: DateTime): string {
    Pad(d.year, 4) + "-" + Pad(d.month, 2) + "-" + Pad(d.day, 2) + "T"
    + Pad(d.hour, 2) + ":" + Pad(d.minute, 2) + ":" + Pad(d.second, 2)
  }

  /** `isoformat()` of an aware UTC datetime: no fraction when the microseconds are zero. */
  function Print(d: DateTime): string {
    PrintSeconds(d) + Fraction(d.micro) + "+00:00"
  }

  function Fraction(micro: nat): string {
    if micro == 0 then "" else "." + Pad(micro, 6)
  }

  lemma AppendOrder(a: string, b: string, x: string, y: string)
    requires |a| == |b|
    ensures Less(a + x, b + y) <==> Less(a, b) || (a == b && Less(x, y))
    ensures a + x == b + y <==> a == b && x == y
  {
    LessAppend(a, b, x, y);
    EqualAppend(a, b, x, y);
  }

  lemma EqualAppend(a: string, b: string, x: string, y: string)
    requires |a| == |b|
    ensures a + x == b + y <==> a == b && x == y
  {
    assert (a + x)[..|a|] == a && (b + y)[..|b|] == b;
    assert (a + x)[|a|..] == x && (b + y)[|b|..] == y;
  }

  /** A missing fraction prints lower than every fraction, because `+` is below `.`. */
  lemma FractionOrder(m: nat, n: nat)
    requires m < 1_000_000 && n < 1_000_000
    ensures Less(Fraction(m) + "+00:00", Fraction(n) + "+00:00") <==> m < n
    ensures Fraction(m) + "+00:00" == Fraction(n) + "+00:00" <==> m == n
  {
    var zone := "+00:00";
    if m == 0 || n == 0 {
      FractionHead(m);
      FractionHead(n);
      LessIrreflexive(zone);
    } else {
      MicroFits(m);
      MicroFits(n);
      PadOrder(m, n, 6);
      LessIrreflexive(zone);
      LessIrreflexive(".");
      AppendOrder(".", ".", Pad(m, 6), Pad(n, 6));
      AppendOrder("." + Pad(m, 6), "." + Pad(n, 6), zone, zone);
    }
  }

  lemma MicroFits(m: nat)
    requires m < 1_000_000
    ensures m < Power10(6)
  {
    assert Power10(6) == 10 * Power10(5) && Power10(5) == 10 * Power10(4) && Power10(4) == 10 * Power10(3)
      && Power10(3) == 10 * Power10(2) && Power10(2) == 10 * Power10(1) && Power10(1) == 10 * Power10(0);
  }

  lemma FractionHead(m: nat)
    ensures (Fraction(m) + "+00:00")[0] == (if m == 0 then '+' else '.')
    ensures m == 0 ==> Fraction(m) + "+00:00" == "+00:00"
  {
  }

  lemma FieldOrder(p: string, q: string, mark: string, m: nat, n: nat, w: nat)
    requires |p| == |q| && m < Power10(w) && n < Power10(w)
    ensures Less(p + mark + Pad(m, w), q + mark + Pad(n, w)) <==> Less(p, q) || (p == q && m < n)
    ensures p + mark + Pad(m, w) == q + mark + Pad(n, w) <==> p == q && m == n
  {
    AppendOrder(p + mark, q + mark, Pad(m, w), Pad(n, w));
    AppendOrder(p, q, mark, mark);
    PadOrder(m, n, w);
    LessIrreflexive(mark);
  }

  lemma PrintSecondsOrder(a: DateTime, b: DateTime)
    requires Valid(a) && Valid(b)
    ensures |PrintSeconds(a)| == |PrintSeconds(b)|
    ensures Less(PrintSeconds(a), PrintSeconds(b)) <==> Before(a.(micro := 0), b.(micro := 0))
    ensures PrintSeconds(a) == PrintSeconds(b) <==> a.(micro := 0) == b.(micro := 0)
  {
    assert Power10(2) == 100 && Power10(4) == 100 * Power10(2);
    PadOrder(a.year, b.year, 4);
    var p, q := Pad(a.year, 4), Pad(b.year, 4);
    FieldOrder(p, q, "-", a.month, b.month, 2);
    p, q := p + "-" + Pad(a.month, 2), q + "-" + Pad(b.month, 2);
    FieldOrder(p, q, "-", a.day, b.day, 2);
    p, q := p + "-" + Pad(a.day, 2), q + "-" + Pad(b.day, 2);
    FieldOrder(p, q, "T", a.hour, b.hour, 2);
    p, q := p + "T" + Pad(a.hour, 2), q + "T" + Pad(b.hour, 2);
    FieldOrder(p, q, ":", a.minute, b.minute, 2);
    p, q := p + ":" + Pad(a.minute, 2), q + ":" + Pad(b.minute, 2);
    FieldOrder(p, q, ":", a.second, b.second, 2);
  }

  /** Bytewise order of printed timestamps is time order, and printing loses nothing. */
  lemma PrintOrder(a: DateTime, b: DateTime)
    requires Valid(a) && Valid(b)
    ensures Less(Print(a), Print(b)) <==> Before(a, b)
    ensures Print(a) == Print(b) <==> a == b
  {
    PrintSecondsOrder(a, b);
    FractionOrder(a.micro, b.micro);
    var s, t := Fraction(a.micro) + "+00:00", Fraction(b.micro) + "+00:00";
    assert Print(a) == PrintSeconds(a) + s && Print(b) == PrintSeconds(b) + t;
    AppendOrder(PrintSeconds(a), PrintSeconds(b), s, t);
  }

  // ---------------------------------------------------------------- reading back

  function ReadDigits(s: string): nat {
    if s == "" then 0
    else
      var c := s[|s| - 1];
      10 * ReadDigits(s[..|s| - 1]) + (if '0' <= c <= '9' then (c - '0') as nat else 0)
  }

  lemma {:induction false} ReadPad(n: nat, w: nat)
    requires n < Power10(w)
    ensures ReadDigits(Pad(n, w)) == n
  {
    if w > 0 {
      ReadPad(n / 10, w - 1);
      var s := Pad(n, w);
      assert s[..w - 1] == Pad(n / 10, w - 1);
      assert s[w - 1] == Digit(n % 10);
    }
  }

  function ReadAt(s: string): DateTime
    requires |s| >= 19
  {
    var micro := if |s| == 32 then ReadDigits(s[20..26]) else 0;
    DateTime(ReadDigits(s[0..4]), ReadDigits(s[5..7]), ReadDigits(s[8..10]),
             ReadDigits(s[11..13]), ReadDigits(s[14..16]), ReadDigits(s[17..19]), micro)
  }

  /** `datetime.fromisoformat` on the spelling `Print` produces; other text counts as unreadable. */
  function Parse(s: string): (d: Option<DateTime>)
    ensures d.Some? ==> Valid(d.value) && Print(d.value) == s
  {
    if |s| >= 19 && Valid(ReadAt(s)) && Print(ReadAt(s)) == s then Some(ReadAt(s)) else None
  }

  /** Where each field stands in the printed text. */
  lemma Layout(d: DateTime)
    ensures var s := Print(d);
            && |s| == (if d.micro == 0 then 25 else 32)
            && s[0..4] == Pad(d.year, 4) && s[5..7] == Pad(d.month, 2) && s[8..10] == Pad(d.day, 2)
            && s[11..13] == Pad(d.hour, 2) && s[14..16] == Pad(d.minute, 2) && s[17..19] == Pad(d.second, 2)
            && (d.micro != 0 ==> s[20..26] == Pad(d.micro, 6))
  {
    var s := PrintSeconds(d);
    assert s[0..4] == Pad(d.year, 4);
    assert s[5..7] == Pad(d.month, 2);
    assert s[8..10] == Pad(d.day, 2);
    assert s[11..13] == Pad(d.hour, 2);
    assert s[14..16] == Pad(d.minute, 2);
    assert s[17..19] == Pad(d.second, 2);
    var tail := Fraction(d.micro) + "+00:00";
    assert Print(d) == s + tail;
    assert forall i, j :: 0 <= i <= j <= 19 ==> Print(d)[i..j] == s[i..j];
    if d.micro != 0 {
      assert tail[1..7] == Pad(d.micro, 6);
      assert Print(d)[20..26] == tail[1..7];
    }
  }

  lemma ReadBack(d: DateTime)
    requires Valid(d)
    ensures |Print(d)| >= 19 && ReadAt(Print(d)) == d
  {
    Layout(d);
    assert Power10(2) == 100 && Power10(4) == 100 * Power10(2);
    ReadPad(d.year, 4);
    ReadPad(d.month, 2);
    ReadPad(d.day, 2);
    ReadPad(d.hour, 2);
    ReadPad(d.minute, 2);
    ReadPad(d.second, 2);
    MicroFits(d.micro);
    ReadPad(d.micro, 6);
  }

  lemma ParsePrint(d: DateTime)
    requires Valid(d)
    ensures Parse(Print(d)) == Some(d)
  {
    ReadBack(d);
  }
}
