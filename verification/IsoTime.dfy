/** UTC instants and the text `datetime.isoformat()` prints for them. The microseconds are
    left out when they are zero, so texts differ in length; their order is still time order. */
module IsoTime {
  import opened PyText

  datatype Instant = Instant(year: nat, month: nat, day: nat, hour: nat, minute: nat, second: nat, micro: nat)

  /** The ranges `datetime` enforces. */
  predicate Valid(t: Instant) {
    && 1 <= t.year < 10000 && 1 <= t.month <= 12 && 1 <= t.day <= 31
    && t.hour < 24 && t.minute < 60 && t.second < 60 && t.micro < 1000000
  }

  /** Chronological order of UTC instants. */
  predicate NotAfter(a: Instant, b: Instant) {
    a.year < b.year || (a.year == b.year && (
    a.month < b.month || (a.month == b.month && (
    a.day < b.day || (a.day == b.day && (
    a.hour < b.hour || (a.hour == b.hour && (
    a.minute < b.minute || (a.minute == b.minute && (
    a.second < b.second || (a.second == b.second && a.micro <= b.micro)))))))))))
  }

  /** `n` in exactly `width` digits. */
  function Pad(n: nat, width: nat): (s: string)
    ensures |s| == width
  {
    if width == 0 then "" else Pad(n / 10, width - 1) + [Digit(n % 10)]
  }

  function Pow10(w: nat): nat { if w == 0 then 1 else 10 * Pow10(w - 1) }

  function Fraction(micro: nat): string {
    if micro == 0 then "+00:00" else ['.'] + (Pad(micro, 6) + "+00:00")
  }

  function Clock(t: Instant): string {
    ['T'] + (Pad(t.hour, 2) + ([':'] + (Pad(t.minute, 2) + ([':'] + (Pad(t.second, 2) + Fraction(t.micro))))))
  }

  function IsoFormat(t: Instant): string {
    Pad(t.year, 4) + (['-'] + (Pad(t.month, 2) + (['-'] + (Pad(t.day, 2) + Clock(t)))))
  }

  lemma LeCons(c: char, d: char, x: string, y: string)
    ensures Le([c] + x, [d] + y) <==> c < d || (c == d && Le(x, y))
  {
    assert ([c] + x)[1..] == x && ([d] + y)[1..] == y;
  }

  /** Numbers of equal width compare like their digits, and what follows decides ties. */
  lemma {:induction false} PadOrder(m: nat, n: nat, w: nat, r: string, s: string)
    requires m < Pow10(w) && n < Pow10(w)
    ensures Le(Pad(m, w) + r, Pad(n, w) + s) <==> m < n || (m == n && Le(r, s))
  {
    if w == 0 {
      assert Pad(m, 0) + r == r && Pad(n, 0) + s == s;
    } else {
      var d, e := Digit(m % 10), Digit(n % 10);
      assert Pad(m, w) + r == Pad(m / 10, w - 1) + ([d] + r);
      assert Pad(n, w) + s == Pad(n / 10, w - 1) + ([e] + s);
      PadOrder(m / 10, n / 10, w - 1, [d] + r, [e] + s);
      LeCons(d, e, r, s);
    }
  }

  lemma Widths()
    ensures Pow10(2) == 100 && Pow10(4) == 10000 && Pow10(6) == 1000000
  {
    assert Pow10(1) == 10 && Pow10(2) == 100 && Pow10(3) == 1000 && Pow10(4) == 10000 && Pow10(5) == 100000;
  }

  lemma {:induction false} LeReflexive(s: string)
    ensures Le(s, s)
  {
    if s != "" { LeReflexive(s[1..]); }
  }

  lemma FractionOrder(m: nat, n: nat)
    requires m < 1000000 && n < 1000000
    ensures Le(Fraction(m), Fraction(n)) <==> m <= n
  {
    Widths();
    LeReflexive("+00:00");
    if m > 0 && n > 0 {
      LeCons('.', '.', Pad(m, 6) + "+00:00", Pad(n, 6) + "+00:00");
      PadOrder(m, n, 6, "+00:00", "+00:00");
    } else if m > 0 {
      assert Fraction(m)[0] == '.' && Fraction(n)[0] == '+';
    } else if n > 0 {
      assert Fraction(m)[0] == '+' && Fraction(n)[0] == '.';
    }
  }

  lemma ClockOrder(a: Instant, b: Instant)
    requires Valid(a) && Valid(b)
    ensures Le(Clock(a), Clock(b)) <==>
              a.hour < b.hour || (a.hour == b.hour && (
              a.minute < b.minute || (a.minute == b.minute && (
              a.second < b.second || (a.second == b.second && a.micro <= b.micro)))))
  {
    Widths();
    var a3, b3 := Pad(a.second, 2) + Fraction(a.micro), Pad(b.second, 2) + Fraction(b.micro);
    var a2, b2 := Pad(a.minute, 2) + ([':'] + a3), Pad(b.minute, 2) + ([':'] + b3);
    FractionOrder(a.micro, b.micro);
    PadOrder(a.second, b.second, 2, Fraction(a.micro), Fraction(b.micro));
    LeCons(':', ':', a3, b3);
    PadOrder(a.minute, b.minute, 2, [':'] + a3, [':'] + b3);
    LeCons(':', ':', a2, b2);
    PadOrder(a.hour, b.hour, 2, [':'] + a2, [':'] + b2);
    LeCons('T', 'T', Pad(a.hour, 2) + ([':'] + a2), Pad(b.hour, 2) + ([':'] + b2));
  }

  /** Comparing the texts of two instants compares the instants. */
  lemma TextOrderIsTimeOrder(a: Instant, b: Instant)
    requires Valid(a) && Valid(b)
    ensures Le(IsoFormat(a), IsoFormat(b)) <==> NotAfter(a, b)
  {
    Widths();
    ClockOrder(a, b);
    var a2, b2 := Pad(a.day, 2) + Clock(a), Pad(b.day, 2) + Clock(b);
    var a1, b1 := Pad(a.month, 2) + (['-'] + a2), Pad(b.month, 2) + (['-'] + b2);
    PadOrder(a.day, b.day, 2, Clock(a), Clock(b));
    LeCons('-', '-', a2, b2);
    PadOrder(a.month, b.month, 2, ['-'] + a2, ['-'] + b2);
    LeCons('-', '-', a1, b1);
    PadOrder(a.year, b.year, 4, ['-'] + a1, ['-'] + b1);
  }

  // ---- reading the text back ----

  function DigitValue(c: char): nat { if '0' <= c <= '9' then c as int - '0' as int else 0 }

  function Value(s: string): nat {
    if s == "" then 0 else 10 * Value(s[..|s| - 1]) + DigitValue(s[|s| - 1])
  }

  lemma {:induction false} ValueOfPad(n: nat, w: nat)
    requires n < Pow10(w)
    ensures Value(Pad(n, w)) == n
  {
    if w > 0 {
      ValueOfPad(n / 10, w - 1);
      assert Pad(n, w)[..w - 1] == Pad(n / 10, w - 1);
    }
  }

  /** `datetime.fromisoformat` on the texts above: fields at fixed places. */
  function FromIso(s: string): Instant
    requires |s| >= 25
  {
    Instant(Value(s[..4]), Value(s[5..7]), Value(s[8..10]), Value(s[11..13]), Value(s[14..16]), Value(s[17..19]),
            if s[19] == '.' && |s| >= 26 then Value(s[20..26]) else 0)
  }

  lemma FractionShape(t: Instant)
    ensures var f := Fraction(t.micro);
            && |f| >= 6 && (f[0] == '.' <==> t.micro > 0)
            && (t.micro > 0 ==> |f| >= 13 && f[1..7] == Pad(t.micro, 6))
  {
    if t.micro > 0 {
      assert Fraction(t.micro)[1..] == Pad(t.micro, 6) + "+00:00";
      assert Fraction(t.micro)[1..7] == Fraction(t.micro)[1..][..6];
    }
  }

  lemma TwoThen(pair: string, rest: string)
    requires |pair| == 2
    ensures (pair + rest)[..2] == pair && (pair + rest)[2..] == rest
    ensures (pair + ([':'] + rest))[..2] == pair && (pair + ([':'] + rest))[3..] == rest
  {
  }

  lemma ClockShape(t: Instant)
    ensures var c := Clock(t);
            && |c| >= 9 && c[1..3] == Pad(t.hour, 2) && c[4..6] == Pad(t.minute, 2) && c[7..9] == Pad(t.second, 2)
            && c[9..] == Fraction(t.micro)
  {
    ClockParts(Pad(t.hour, 2), Pad(t.minute, 2), Pad(t.second, 2), Fraction(t.micro));
  }

  lemma ClockParts(hour: string, minute: string, second: string, rest: string)
    requires |hour| == 2 && |minute| == 2 && |second| == 2
    ensures var c := ['T'] + (hour + ([':'] + (minute + ([':'] + (second + rest)))));
            |c| >= 9 && c[1..3] == hour && c[4..6] == minute && c[7..9] == second && c[9..] == rest
  {
    var c3 := second + rest;
    var c2 := minute + ([':'] + c3);
    var c1 := hour + ([':'] + c2);
    TwoThen(second, rest);
    TwoThen(minute, c3);
    TwoThen(hour, c2);
    Slices(['T'] + c1, c1, c2, c3);
  }

  lemma Slices(c: string, c1: string, c2: string, c3: string)
    requires |c| >= 9 && c[1..] == c1 && c1[3..] == c2 && c2[3..] == c3
    ensures c[1..3] == c1[..2] && c[4..6] == c2[..2] && c[7..9] == c3[..2] && c[9..] == c3[2..]
  {
    assert c[4..] == c2;
    assert c[7..] == c3;
  }

  lemma DateShape(t: Instant)
    ensures var s := IsoFormat(t);
            && |s| >= 10 && s[..4] == Pad(t.year, 4) && s[5..7] == Pad(t.month, 2) && s[8..10] == Pad(t.day, 2)
            && s[10..] == Clock(t)
  {
    var s := IsoFormat(t);
    var s2 := Pad(t.day, 2) + Clock(t);
    var s1 := Pad(t.month, 2) + (['-'] + s2);
    assert s[..4] == Pad(t.year, 4) && s[5..] == s1;
    assert s1[..2] == Pad(t.month, 2) && s1[3..] == s2;
    assert s2[..2] == Pad(t.day, 2) && s2[2..] == Clock(t);
    assert s[5..7] == s1[..2] && s[8..] == s2;
    assert s[8..10] == s2[..2] && s[10..] == Clock(t);
  }

  /** Parsing the printed text gives back the instant. */
  lemma IsoRoundTrip(t: Instant)
    requires Valid(t)
    ensures |IsoFormat(t)| >= 25 && FromIso(IsoFormat(t)) == t
  {
    DateShape(t);
    ClockShape(t);
    FractionShape(t);
    DateSlices(IsoFormat(t), Clock(t));
    Widths();
    ValueOfPad(t.year, 4);
    ValueOfPad(t.month, 2);
    ValueOfPad(t.day, 2);
    ValueOfPad(t.hour, 2);
    ValueOfPad(t.minute, 2);
    ValueOfPad(t.second, 2);
    ValueOfPad(t.micro, 6);
  }

  lemma DateSlices(s: string, c: string)
    requires |s| >= 10 && s[10..] == c && |c| >= 15
    ensures s[11..13] == c[1..3] && s[14..16] == c[4..6] && s[17..19] == c[7..9] && s[19..] == c[9..]
    ensures s[19] == c[9..][0] && (|c| >= 16 ==> s[20..26] == c[9..][1..7])
  {
  }
}
