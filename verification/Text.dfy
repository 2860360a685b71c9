/** Character classes, trimming and bytewise order of text. */
module Text {

  /** The characters Python's `str.isspace` accepts; `str.strip` and the `\s` pattern use the same set. */
  predicate Space(c: char) {
    var n := c as int;
    || 0x09 <= n <= 0x0D
    || 0x1C <= n <= 0x20
    || n == 0x85 || n == 0xA0 || n == 0x1680
    || 0x2000 <= n <= 0x200A
    || n == 0x2028 || n == 0x2029 || n == 0x202F || n == 0x205F || n == 0x3000
  }

  /** The index of the first non-space character, or the length. */
  function Front(s: string): (k: nat)
    ensures k <= |s|
    ensures forall i :: 0 <= i < k ==> Space(s[i])
    ensures k < |s| ==> !Space(s[k])
  {
    if s != "" && Space(s[0]) then
      var k := Front(s[1..]);
      assert forall i :: 0 < i <= k ==> s[i] == s[1..][i - 1];
      k + 1
    else 0
  }

  /** One past the index of the last non-space character, or zero. */
  function Back(s: string): (k: nat)
    ensures k <= |s|
    ensures forall i :: k <= i < |s| ==> Space(s[i])
    ensures k > 0 ==> !Space(s[k - 1])
  {
    if s != "" && Space(s[|s| - 1]) then
      var k := Back(s[..|s| - 1]);
      assert forall i :: 0 <= i < |s| - 1 ==> s[i] == s[..|s| - 1][i];
      k
    else |s|
  }

  function LStrip(s: string): string {
    s[Front(s)..]
  }

  function RStrip(s: string): string {
    s[..Back(s)]
  }

  function Strip(s: string): (r: string) {
    RStrip(LStrip(s))
  }

  predicate Trimmed(s: string) {
    s != "" ==> !Space(s[0]) && !Space(s[|s| - 1])
  }

  predicate Blank(s: string) {
    forall i :: 0 <= i < |s| ==> Space(s[i])
  }

  /** Trimming removes an all-space left end and an all-space right end and nothing else. */
  lemma StripSplits(s: string) returns (left: string, right: string)
    ensures s == left + Strip(s) + right
    ensures Blank(left) && Blank(right) && Trimmed(Strip(s))
  {
    var l := LStrip(s);
    var r := Strip(s);
    left := s[..Front(s)];
    right := l[Back(l)..];
    assert s == left + r + right by {
      assert s == left + l;
      assert l == r + right;
    }
    assert Blank(left) by {
      forall i | 0 <= i < |left| ensures Space(left[i]) {
        assert left[i] == s[i];
      }
    }
    assert Blank(right) by {
      forall i | 0 <= i < |right| ensures Space(right[i]) {
        assert right[i] == l[Back(l) + i];
      }
    }
    assert Trimmed(r) by {
      assert l != "" ==> l[0] == s[Front(s)];
    }
  }

  /** What is trimmed off is determined by where the non-space characters are. */
  lemma StripUnique(left: string, body: string, right: string)
    requires Blank(left) && Blank(right) && Trimmed(body)
    ensures Strip(left + body + right) == body
  {
    var s := left + body + right;
    assert forall i :: 0 <= i < |left| ==> s[i] == left[i];
    assert forall i :: 0 <= i < |right| ==> s[|left| + |body| + i] == right[i];
    var l := LStrip(s);
    if body == "" {
      assert forall i :: |left| <= i < |s| ==> s[i] == right[i - |left|];
      assert Front(s) == |s|;
    } else {
      assert s[|left|] == body[0];
      assert Front(s) == |left|;
      assert l == body + right;
      assert l[|body| - 1] == body[|body| - 1];
      assert forall i :: |body| <= i < |l| ==> l[i] == right[i - |body|];
      assert Back(l) == |body|;
    }
  }

  lemma StripOfTrimmed(s: string)
    requires Trimmed(s)
    ensures Strip(s) == s
  {
    assert Front(s) == 0;
    assert LStrip(s) == s;
    assert Back(s) == |s|;
  }

  /** Trimming keeps everything up to a non-space character when the text starts with one. */
  lemma StripKeeps(s: string, k: nat)
    requires k < |s| && !Space(s[0]) && !Space(s[k])
    ensures |Strip(s)| > k && Strip(s) == s[..|Strip(s)|]
  {
    assert Front(s) == 0;
    assert LStrip(s) == s;
  }

  lemma Assoc<T>(a: seq<T>, b: seq<T>, c: seq<T>)
    ensures a + b + c == a + (b + c)
  {
  }

  /** Dropping past the front of a suffix is dropping that much more. */
  lemma DropDrop<T>(s: seq<T>, m: nat, n: nat)
    requires m + n <= |s|
    ensures s[m..][n..] == s[m + n..] && s[..m] + s[m..] == s
  {
  }

  /** Bytewise order, the one SQLite's BINARY collation and Postgres' C collation use. */
  predicate Less(a: string, b: string) {
    b != "" && (a == "" || a[0] < b[0] || (a[0] == b[0] && Less(a[1..], b[1..])))
  }

  lemma LessIrreflexive(a: string)
    ensures !Less(a, a)
  {
  }

  lemma LessTransitive(a: string, b: string, c: string)
    requires Less(a, b) && Less(b, c)
    ensures Less(a, c)
  {
  }

  lemma LessAsymmetric(a: string, b: string)
    requires Less(a, b)
    ensures !Less(b, a)
  {
  }

  lemma {:induction false} LessAppend(a: string, b: string, x: string, y: string)
    requires |a| == |b|
    ensures Less(a + x, b + y) <==> Less(a, b) || (a == b && Less(x, y))
  {
    if a == "" {
      assert a + x == x && b + y == y;
    } else {
      assert (a + x)[1..] == a[1..] + x && (b + y)[1..] == b[1..] + y;
      assert a == [a[0]] + a[1..] && b == [b[0]] + b[1..];
      LessAppend(a[1..], b[1..], x, y);
    }
  }
}
