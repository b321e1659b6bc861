/** Python string operations shared by the other modules: code point order,
    decimal numerals, `partition`, `split` and prefix tests. */
module PyText {

  /** The order `sorted` uses on `str`: lexicographic by code point. */
  predicate Le(a: string, b: string) {
    a == "" || (b != "" && (a[0] < b[0] || (a[0] == b[0] && Le(a[1..], b[1..]))))
  }

  lemma {:induction false} LeTotal(a: string, b: string)
    ensures Le(a, b) || Le(b, a)
  {
    if a != "" && b != "" && a[0] == b[0] {
      LeTotal(a[1..], b[1..]);
    }
  }

  lemma {:induction false} LeTransitive(a: string, b: string, c: string)
    requires Le(a, b) && Le(b, c)
    ensures Le(a, c)
  {
    if a != "" && b != "" && c != "" && a[0] == b[0] == c[0] {
      LeTransitive(a[1..], b[1..], c[1..]);
    }
  }

  lemma {:induction false} LeAntisymmetric(a: string, b: string)
    requires Le(a, b) && Le(b, a)
    ensures a == b
  {
    if a != "" && b != "" {
      LeAntisymmetric(a[1..], b[1..]);
      assert a == [a[0]] + a[1..] && b == [b[0]] + b[1..];
    }
  }

  // ---- decimal numerals ----

  const DIGITS := "0123456789"

  function Digit(d: nat): (c: char)
    requires d < 10
    ensures '0' <= c <= '9' && c as int == '0' as int + d
  {
    DIGITS[d]
  }

  predicate IsDigit(c: char) { '0' <= c <= '9' }

  function NatText(n: nat): (s: string)
    ensures s != "" && forall c :: c in s ==> IsDigit(c)
    ensures |s| == 1 <==> n < 10
  {
    if n < 10 then [Digit(n)] else NatText(n / 10) + [Digit(n % 10)]
  }

  function Abs(n: int): nat { if n < 0 then -n else n }

  function IntText(n: int): (s: string)
    ensures s != "" && (IsDigit(s[0]) || s[0] == '-')
  {
    if n < 0 then ['-'] + NatText(Abs(n)) else NatText(Abs(n))
  }

  lemma {:induction false} NatTextInjective(m: nat, n: nat)
    requires NatText(m) == NatText(n)
    ensures m == n
  {
    var s, t := NatText(m), NatText(n);
    if m >= 10 && n >= 10 {
      assert s[|s| - 1] == Digit(m % 10) && t[|t| - 1] == Digit(n % 10);
      assert s[..|s| - 1] == NatText(m / 10) && t[..|t| - 1] == NatText(n / 10);
      NatTextInjective(m / 10, n / 10);
    } else if m < 10 && n < 10 {
      assert s[0] == Digit(m) && t[0] == Digit(n);
    }
  }

  predicate StartsWithDigit(s: string) { s != "" && IsDigit(s[0]) }

  /** A numeral ends at the first character that is not a digit. */
  lemma {:induction false} DigitsSplit(u: string, v: string, r: string, s: string)
    requires forall c :: c in u ==> IsDigit(c)
    requires forall c :: c in v ==> IsDigit(c)
    requires !StartsWithDigit(r) && !StartsWithDigit(s)
    requires u + r == v + s
    ensures u == v && r == s
  {
    assert u == "" ==> u + r == r;
    assert v == "" ==> v + s == s;
    assert u != "" ==> (u + r)[0] == u[0];
    assert v != "" ==> (v + s)[0] == v[0];
    if u != "" && v != "" {
      assert (u + r)[1..] == u[1..] + r && (v + s)[1..] == v[1..] + s;
      DigitsSplit(u[1..], v[1..], r, s);
      assert u == [u[0]] + u[1..] && v == [v[0]] + v[1..];
    }
  }

  lemma NatTextSplit(m: nat, n: nat, r: string, s: string)
    requires !StartsWithDigit(r) && !StartsWithDigit(s)
    requires NatText(m) + r == NatText(n) + s
    ensures m == n && r == s
  {
    DigitsSplit(NatText(m), NatText(n), r, s);
    NatTextInjective(m, n);
  }

  lemma IntTextHead(m: int, r: string)
    ensures IntText(m) + r != ""
    ensures m < 0 ==> IntText(m) + r == ['-'] + (NatText(Abs(m)) + r)
    ensures m >= 0 ==> IntText(m) + r == NatText(Abs(m)) + r && IsDigit((IntText(m) + r)[0])
  {
  }

  lemma SameAfter(c: char, d: char, u: string, v: string)
    requires [c] + u == [d] + v
    ensures c == d && u == v
  {
    assert ([c] + u)[0] == c && ([d] + v)[0] == d;
    assert ([c] + u)[1..] == u && ([d] + v)[1..] == v;
  }

  lemma SameMagnitude(m: int, n: int)
    requires Abs(m) == Abs(n) && (m < 0 <==> n < 0)
    ensures m == n
  {
  }

  lemma IntTextSplit(m: int, n: int, r: string, s: string)
    requires !StartsWithDigit(r) && !StartsWithDigit(s)
    requires IntText(m) + r == IntText(n) + s
    ensures m == n && r == s
  {
    IntTextHead(m, r);
    IntTextHead(n, s);
    if m < 0 {
      SameAfter('-', '-', NatText(Abs(m)) + r, NatText(Abs(n)) + s);
    }
    NatTextSplit(Abs(m), Abs(n), r, s);
    SameMagnitude(m, n);
  }

  // ---- strip, split and prefix tests ----

  /** The characters `str.strip()` removes. */
  predicate IsSpace(c: char) {
    || '\t' <= c <= '\r' || '\U{001C}' <= c <= ' '
    || c in "\U{0085}\U{00A0}\U{1680}\U{2028}\U{2029}\U{202F}\U{205F}\U{3000}"
    || '\U{2000}' <= c <= '\U{200A}'
  }

  function DropLeft(s: string, drop: char -> bool): (r: string)
    ensures r != "" ==> !drop(r[0])
    ensures |r| <= |s| && (s != "" && drop(s[0]) ==> |r| < |s|)
  {
    if s != "" && drop(s[0]) then DropLeft(s[1..], drop) else s
  }

  function DropRight(s: string, drop: char -> bool): (r: string)
    ensures r != "" ==> !drop(r[|r| - 1]) && s != "" && r[0] == s[0]
    ensures r <= s
  {
    if s != "" && drop(s[|s| - 1]) then DropRight(s[..|s| - 1], drop) else s
  }

  /** `s.strip(chars)`: both ends lose every character that satisfies `drop`. */
  function Strip(s: string, drop: char -> bool): (r: string)
    ensures r != "" ==> !drop(r[0]) && !drop(r[|r| - 1])
  {
    DropRight(DropLeft(s, drop), drop)
  }

  lemma {:induction false} DropLeftIsSuffix(s: string, drop: char -> bool)
    ensures DropLeft(s, drop) == s[|s| - |DropLeft(s, drop)|..]
  {
    if s != "" && drop(s[0]) { DropLeftIsSuffix(s[1..], drop); }
  }

  /** What is left is one stretch of the original. */
  lemma StripIsSlice(s: string, drop: char -> bool) returns (i: nat)
    ensures i + |Strip(s, drop)| <= |s| && Strip(s, drop) == s[i..i + |Strip(s, drop)|]
  {
    var t := DropLeft(s, drop);
    var r := DropRight(t, drop);
    DropLeftIsSuffix(s, drop);
    i := |s| - |t|;
    assert r == t[..|r|] == s[i..][..|r|];
  }

  lemma {:induction false} DropLeftParts(s: string, drop: char -> bool) returns (before: string)
    ensures s == before + DropLeft(s, drop) && forall c :: c in before ==> drop(c)
  {
    before := "";
    if s != "" && drop(s[0]) {
      var rest := DropLeftParts(s[1..], drop);
      before := [s[0]] + rest;
    }
  }

  lemma {:induction false} DropRightParts(s: string, drop: char -> bool) returns (after: string)
    ensures s == DropRight(s, drop) + after && forall c :: c in after ==> drop(c)
  {
    after := "";
    if s != "" && drop(s[|s| - 1]) {
      var rest := DropRightParts(s[..|s| - 1], drop);
      after := rest + [s[|s| - 1]];
    }
  }

  /** Only dropped characters lie around what is left. */
  lemma StripParts(s: string, drop: char -> bool) returns (before: string, after: string)
    ensures s == before + (Strip(s, drop) + after)
    ensures (forall c :: c in before ==> drop(c)) && forall c :: c in after ==> drop(c)
  {
    before := DropLeftParts(s, drop);
    after := DropRightParts(DropLeft(s, drop), drop);
  }

  lemma StripNothing(s: string, drop: char -> bool)
    requires s != "" ==> !drop(s[0]) && !drop(s[|s| - 1])
    ensures Strip(s, drop) == s
  {
  }

  lemma {:induction false} BeforeOf(x: string, sep: char, y: string)
    requires sep !in x
    ensures Before(x, sep) == x
    ensures Before(x + [sep] + y, sep) == x && Has(x + [sep] + y, sep) && After(x + [sep] + y, sep) == y
  {
    var s := x + [sep] + y;
    if x == "" {
      assert s[0] == sep && s[1..] == y;
    } else {
      assert s[0] == x[0] && s[1..] == x[1..] + [sep] + y;
      BeforeOf(x[1..], sep, y);
      assert Before(s, sep) == x;
      assert s[|x| + 1..] == y;
    }
  }

  /** `s.split(sep, 1)`: everything before the first `sep`, and the rest if there is one. */
  function Before(s: string, sep: char): (r: string)
    ensures sep !in r && r <= s
    ensures |r| < |s| ==> s[|r|] == sep
  {
    if s == "" || s[0] == sep then "" else [s[0]] + Before(s[1..], sep)
  }

  function After(s: string, sep: char): string {
    var n := |Before(s, sep)|;
    if n < |s| then s[n + 1..] else ""
  }

  predicate Has(s: string, sep: char) { |Before(s, sep)| < |s| }

  predicate StartsWith(s: string, prefix: string) { prefix <= s }
}
