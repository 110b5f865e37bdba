/** Numbers of the JSON reader and printer, in exact arithmetic. */
module JsonNumbers {
  import opened Texts

  // ------------------------------------------------------------ decimal digits

  function DigitChar(d: nat): (c: char)
    requires d < 10
    ensures Digit(c) && DigitValue(c) == d
  {
    '0' + d as char
  }

  function DigitValue(c: char): (d: nat)
    requires Digit(c)
    ensures d < 10
  {
    (c - '0') as nat
  }

  predicate AllDigits(t: string) {
    forall i | 0 <= i < |t| :: Digit(t[i])
  }

  function NatValue(t: string): nat
    requires AllDigits(t)
  {
    if |t| == 0 then 0 else 10 * NatValue(t[..|t| - 1]) + DigitValue(t[|t| - 1])
  }

  function Pow10(e: nat): (p: nat)
    ensures p > 0
  {
    if e == 0 then 1 else 10 * Pow10(e - 1)
  }

  /** The decimal digits of `n`, without leading zeros. */
  function Dec(n: nat): (t: string)
    ensures AllDigits(t) && |t| > 0 && NatValue(t) == n
  {
    if n < 10 then Snoc("", n) else Snoc(Dec(n / 10), n % 10)
  }

  function Snoc(t: string, d: nat): (u: string)
    requires AllDigits(t) && d < 10
    ensures AllDigits(u) && |u| == |t| + 1 && NatValue(u) == 10 * NatValue(t) + d
  {
    var u := t + [DigitChar(d)];
    assert u[..|u| - 1] == t;
    u
  }

  /** The last `w` decimal digits of `n`, with leading zeros. */
  function Padded(n: nat, w: nat): (t: string)
    requires n < Pow10(w)
    ensures AllDigits(t) && |t| == w && NatValue(t) == n
  {
    if w == 0 then "" else Snoc(Padded(n / 10, w - 1), n % 10)
  }

  lemma {:induction false} NatValueAppend(t: string, u: string)
    requires AllDigits(t) && AllDigits(u)
    ensures AllDigits(t + u) && NatValue(t + u) == NatValue(t) * Pow10(|u|) + NatValue(u)
  {
    if |u| == 0 {
      assert t + u == t;
    } else {
      var v, c, w := u[..|u| - 1], u[|u| - 1], t + u;
      NatValueAppend(t, v);
      assert w[..|w| - 1] == t + v && w[|w| - 1] == c;
      Shift(NatValue(t), Pow10(|v|), NatValue(v), DigitValue(c));
    }
  }

  lemma Shift(a: nat, p: nat, b: nat, c: nat)
    ensures 10 * (a * p + b) + c == a * (10 * p) + (10 * b + c)
  {
  }

  // ------------------------------------------------------------------ printing

  /** The integer nearest to `y`; the even one of two equally near. */
  function RoundHalfEven(y: real): (n: int)
    ensures -0.5 <= n as real - y <= 0.5
    ensures y >= 0.0 ==> n >= 0
  {
    var f := y.Floor;
    var d := y - f as real;
    if d < 0.5 || (d == 0.5 && f % 2 == 0) then f else f + 1
  }

  /** A non-negative number in millionths, as the six-decimal print rounds it. */
  function Millionths(x: real): nat
    requires x >= 0.0
  {
    RoundHalfEven(x * 1000000.0)
  }

  function PrintMillionths(n: nat): string {
    assert Pow10(6) == 1000000 by { assert Pow10(3) == 1000; }
    Dec(n / 1000000) + "." + Padded(n % 1000000, 6)
  }

  /** The print of a number with six decimals. */
  function PrintNumber(x: real): string {
    if x < 0.0 then "-" + PrintMillionths(Millionths(-x)) else PrintMillionths(Millionths(x))
  }

  // ------------------------------------------------------------------- reading

  /** The end of the digits that stand in `t` from `i`. */
  function DigitsEnd(t: string, i: nat): (j: nat)
    requires i <= |t|
    ensures i <= j <= |t| && AllDigits(t[i..j]) && (j < |t| ==> !Digit(t[j]))
    decreases |t| - i
  {
    if i < |t| && Digit(t[i]) then
      var j := DigitsEnd(t, i + 1);
      assert t[i..j] == [t[i]] + t[i + 1..j];
      j
    else i
  }

  function SignEnd(t: string, i: nat): (j: nat)
    requires i <= |t|
    ensures i <= j <= |t|
  {
    if i < |t| && (t[i] == '+' || t[i] == '-') then i + 1 else i
  }

  function PointEnd(t: string, j: nat): (k: nat)
    requires j <= |t|
    ensures j <= k <= |t|
  {
    if j < |t| && t[j] == '.' then j + 1 else j
  }

  /** The decimal exponent at `k`; zero when there is no complete one. */
  function Exponent(t: string, k: nat): int
    requires k <= |t|
  {
    if k < |t| && (t[k] == 'e' || t[k] == 'E') then
      var a := SignEnd(t, k + 1);
      var e: int := NatValue(t[a..DigitsEnd(t, a)]);
      if t[a - 1] == '-' then 0 - e else e
    else 0
  }

  function TenTo(e: int): real {
    if e >= 0 then Pow10(e) as real else 1.0 / Pow10(-e) as real
  }

  /** The number `n` times ten to the power of `e`, with its sign. */
  function Scaled(minus: bool, n: nat, e: int): real {
    var x := n as real * TenTo(e);
    if minus then -x else x
  }

  /** The number at the start of `t`; `None` when there is none and the conversion throws. */
  function Stod(t: string): Option<real> {
    var a := SignEnd(t, 0);
    var j := DigitsEnd(t, a);
    var f := PointEnd(t, j);
    var k := if f == j then j else DigitsEnd(t, f);
    var digits := t[a..j] + t[f..k];
    if |digits| == 0 then None
    else Some(Scaled(a == 1 && t[0] == '-', NatValue(digits), Exponent(t, k) - (k - f)))
  }

  function SkipBlanks(s: string, i: nat): (j: nat)
    ensures i <= j && (i <= |s| ==> j <= |s|)
    decreases |s| - i
  {
    if i < |s| && Skippable(s[i]) then SkipBlanks(s, i + 1) else i
  }

  function NumericEnd(s: string, i: nat): (j: nat)
    ensures i <= j && (i <= |s| ==> j <= |s|)
    ensures i < |s| && Numeric(s[i]) ==> i < j
    decreases |s| - i
  {
    if i < |s| && Numeric(s[i]) then NumericEnd(s, i + 1) else i
  }

  /** What reading a number gives: nothing to read, a text that does not convert, or a number. */
  datatype NumberRead = NoNumber | Unconverted | Number(value: real, next: nat)

  function ParseNumber(s: string, begin: nat): (r: NumberRead)
    ensures r.Number? ==> begin < r.next <= |s|
  {
    var i := SkipBlanks(s, begin);
    var j := NumericEnd(s, i);
    if j <= i then NoNumber
    else match Stod(s[i..j])
      case None => Unconverted
      case Some(x) => Number(x, j)
  }

  /** A text that starts with a digit converts. */
  lemma DigitConverts(t: string)
    requires |t| > 0 && Digit(t[0])
    ensures Stod(t).Some?
  {
    assert SignEnd(t, 0) == 0;
    assert DigitsEnd(t, 0) >= 1;
  }

  // -------------------------------------------------------- printing and reading

  lemma {:induction false} DigitsEndOf(t: string, d: string, i: nat, rest: string)
    requires AllDigits(d) && i <= |d| && t == d + rest && (rest != "" ==> !Digit(rest[0]))
    ensures DigitsEnd(t, i) == |d|
    decreases |d| - i
  {
    if i < |d| {
      DigitsEndOf(t, d, i + 1, rest);
    } else if rest != "" {
      assert t[|d|] == rest[0];
    }
  }

  /** Digits, a point and digits are read as the number they spell. */
  lemma StodDecimal(d: string, f: string)
    requires AllDigits(d) && AllDigits(f) && |d| > 0
    ensures AllDigits(d + f)
    ensures Stod(d + "." + f) == Some(NatValue(d + f) as real / Pow10(|f|) as real)
  {
    hide *;
    DecimalScan(d, f);
    DecimalParts(d, f);
    NatValueAppend(d, f);
    StodScanned(d + "." + f, |d|, |f|, d + f);
  }

  lemma DecimalParts(d: string, f: string)
    ensures var t := d + "." + f; |t| == |d| + 1 + |f| && t[0..|d|] + t[|d| + 1..|t|] == d + f
  {
    var t := d + "." + f;
    assert t[0..|d|] == d && t[|d| + 1..|t|] == f;
  }

  /** The scan of digits, a point and digits. */
  lemma DecimalScan(d: string, f: string)
    requires AllDigits(d) && AllDigits(f) && |d| > 0
    ensures var t := d + "." + f;
            SignEnd(t, 0) == 0 && DigitsEnd(t, 0) == |d| && PointEnd(t, |d|) == |d| + 1 && DigitsEnd(t, |d| + 1) == |t|
  {
    var t := d + "." + f;
    assert t == d + ("." + f) && ("." + f)[0] == '.';
    assert t[0] == d[0] && t[|d|] == '.';
    DigitsEndOf(t, d, 0, "." + f);
    assert t[|d| + 1..] == f;
    DigitsEndLast(t, |d| + 1);
  }

  /** The conversion of a text whose scan is known. */
  lemma StodScanned(t: string, j: nat, w: nat, digits: string)
    requires |t| == j + 1 + w && digits == t[0..j] + t[j + 1..|t|] && j > 0 && AllDigits(digits)
    requires SignEnd(t, 0) == 0 && DigitsEnd(t, 0) == j && PointEnd(t, j) == j + 1 && DigitsEnd(t, j + 1) == |t|
    ensures Stod(t) == Some(NatValue(digits) as real / Pow10(w) as real)
  {
    hide DigitsEnd, NatValue, Pow10, TenTo, AllDigits;
    var e := Exponent(t, |t|) - (|t| - (j + 1));
    assert |digits| > 0;
    var n, p := NatValue(digits) as real, Pow10(w) as real;
    assert e == 0 - w;
    assert Stod(t).value == n * TenTo(e);
    TenToNegative(w);
    assert TenTo(e) == 1.0 / p;
    Quotient(n, p, TenTo(e));
    assert Stod(t).value == n / p;
  }

  lemma TenToNegative(w: nat)
    ensures TenTo(0 - w) == 1.0 / Pow10(w) as real
  {
  }

  lemma Quotient(a: real, p: real, q: real)
    requires p > 0.0 && q == 1.0 / p
    ensures a * q == a / p
  {
  }

  lemma {:induction false} DigitsEndLast(t: string, i: nat)
    requires i <= |t| && AllDigits(t[i..])
    ensures DigitsEnd(t, i) == |t|
    decreases |t| - i
  {
    if i < |t| {
      assert t[i..][0] == t[i];
      assert t[i + 1..] == t[i..][1..];
      DigitsEndLast(t, i + 1);
    }
  }

  /** A print of millionths is read back as that many millionths. */
  lemma MillionthsRoundTrip(n: nat)
    ensures Stod(PrintMillionths(n)) == Some(n as real / 1000000.0)
  {
    hide Stod, Dec, Padded, NatValue;
    assert Pow10(6) == 1000000 by { assert Pow10(3) == 1000; }
    var d, f := Dec(n / 1000000), Padded(n % 1000000, 6);
    StodDecimal(d, f);
    NatValueAppend(d, f);
    assert NatValue(d + f) == (n / 1000000) * 1000000 + n % 1000000 == n;
    assert PrintMillionths(n) == d + "." + f;
  }

  /** The number that the print of `x` is read back as. */
  function ReadBack(x: real): real
    requires x >= 0.0
  {
    Millionths(x) as real / 1000000.0
  }

  /** Reading the print back is off by at most half a millionth, and printing again gives the same text. */
  lemma PrintError(x: real)
    requires x >= 0.0
    ensures Stod(PrintNumber(x)) == Some(ReadBack(x))
    ensures -0.0000005 <= ReadBack(x) - x <= 0.0000005
    ensures PrintNumber(ReadBack(x)) == PrintNumber(x)
  {
    hide Stod, PrintMillionths;
    MillionthsRoundTrip(Millionths(x));
    MillionthsOf(Millionths(x));
  }

  lemma MillionthsOf(n: nat)
    ensures Millionths(n as real / 1000000.0) == n
  {
    assert (n as real / 1000000.0) * 1000000.0 == n as real;
    assert (n as real).Floor == n;
  }

  /** The number is a whole number of millionths. */
  predicate SixDecimals(x: real) {
    (x * 1000000.0).Floor as real == x * 1000000.0
  }

  lemma ReadBackExact(x: real)
    requires x >= 0.0
    ensures ReadBack(x) == x <==> SixDecimals(x)
  {
    var y := x * 1000000.0;
    if ReadBack(x) == x {
      assert y == Millionths(x) as real;
    }
    if SixDecimals(x) {
      assert RoundHalfEven(y) == y.Floor;
    }
  }

  predicate AllNumeric(t: string) {
    forall i | 0 <= i < |t| :: Numeric(t[i])
  }

  lemma PrintNumeric(n: nat)
    ensures AllNumeric(PrintMillionths(n)) && |PrintMillionths(n)| > 0 && Digit(PrintMillionths(n)[0])
  {
  }

  lemma {:induction false} NumericEndAt(s: string, i: nat, j: nat)
    requires i <= j <= |s| && AllNumeric(s[i..j]) && (j < |s| ==> !Numeric(s[j]))
    ensures NumericEnd(s, i) == j
    decreases j - i
  {
    if i < j {
      assert s[i..j][0] == s[i];
      assert s[i + 1..j] == s[i..j][1..];
      NumericEndAt(s, i + 1, j);
    }
  }

  lemma {:induction false} NumericEndIs(s: string, i: nat)
    requires i <= |s|
    ensures var j := NumericEnd(s, i); AllNumeric(s[i..j]) && (j < |s| ==> !Numeric(s[j]))
    decreases |s| - i
  {
    if i < |s| && Numeric(s[i]) {
      NumericEndIs(s, i + 1);
      var j := NumericEnd(s, i);
      assert s[i..j] == [s[i]] + s[i + 1..j];
    }
  }

  /** Reads the number at `begin`; `thrown` tells that the conversion threw. */
  method ParseNumberText(s: string, begin: nat) returns (value: Option<real>, next: Option<nat>, thrown: bool)
    ensures match ParseNumber(s, begin)
            case NoNumber => value == None && next == None && !thrown
            case Unconverted => value == None && next == None && thrown
            case Number(x, j) => value == Some(x) && next == Some(j) && !thrown
  {
    value, next, thrown := None, None, false;
    var end := |s|;
    var idx := begin;
    while idx < end && Skippable(s[idx])
      invariant begin <= idx && SkipBlanks(s, begin) == SkipBlanks(s, idx)
    {
      idx := idx + 1;
    }
    var numBegin := idx;
    while idx < end && (Digit(s[idx]) || Numeric(s[idx]))
      invariant numBegin <= idx && (idx > numBegin ==> idx <= end) && NumericEnd(s, numBegin) == NumericEnd(s, idx)
    {
      idx := idx + 1;
    }
    if idx <= numBegin {
      return;
    }
    value := Stod(s[numBegin..idx]);
    if value == None {
      thrown := true;
    } else {
      next := Some(idx);
    }
  }
}
