/** What numbers mean: the value of every numeral that is read, and the shape and error of every number printed,
    stated over digits and powers of ten. */
module JsonNumberLaws {
  import opened Texts
  import opened JsonNumbers
  import opened JsonReader
  import opened JsonGrammar
  import opened JsonLanguage

  // ------------------------------------------------------------------- powers of ten

  lemma {:induction false} PowerSum(a: nat, b: nat)
    ensures Pow10(a + b) == Pow10(a) * Pow10(b)
    decreases a
  {
    if a > 0 {
      PowerSum(a - 1, b);
      assert Pow10(a) == 10 * Pow10(a - 1) && Pow10(a + b) == 10 * Pow10(a + b - 1);
      TenTimes(Pow10(a - 1), Pow10(b));
    } else {
      assert Pow10(0) == 1;
    }
  }

  lemma TenTimes(x: nat, y: nat)
    ensures 10 * (x * y) == (10 * x) * y
  {
  }

  lemma Ratio(p: nat, q: nat, r: nat)
    requires p > 0 && q > 0 && r == p * q
    ensures 1.0 / p as real == q as real / r as real
    ensures r as real / p as real == q as real
    ensures (1.0 / p as real) / q as real == 1.0 / r as real
  {
    var x, y := p as real, q as real;
    assert r as real == x * y;
    assert (1.0 / x) * (x * y) == y;
    assert (x * y) / x == y;
    assert ((1.0 / x) / y) * (x * y) == 1.0;
  }

  /** An exponent and the decimals behind the point. */
  lemma TenToMinus(e: int, w: nat)
    ensures TenTo(e - w) == TenTo(e) / Pow10(w) as real
  {
    hide Pow10;
    if e >= w {
      PowerSum(w, e - w);
      Ratio(Pow10(w), Pow10(e - w), Pow10(e));
    } else if e >= 0 {
      PowerSum(w - e, e);
      Ratio(Pow10(w - e), Pow10(e), Pow10(w));
    } else {
      PowerSum(-e, w);
      Ratio(Pow10(-e), Pow10(w), Pow10(w - e));
    }
  }

  // ------------------------------------------------------------------ scanning numerals

  lemma {:induction false} DigitsEndAt(t: string, i: nat, j: nat)
    requires i <= j <= |t| && AllDigits(t[i..j]) && (j < |t| ==> !Digit(t[j]))
    ensures DigitsEnd(t, i) == j
    decreases j - i
  {
    if i < j {
      assert t[i..j][0] == t[i];
      assert t[i + 1..j] == t[i..j][1..];
      DigitsEndAt(t, i + 1, j);
    }
  }

  predicate IsSign(sign: string) {
    sign == "" || sign == "+" || sign == "-"
  }

  /** Digits, and if there is a point digits behind it; at least one digit in all. */
  predicate IsMantissa(d: string, point: bool, f: string) {
    AllDigits(d) && AllDigits(f) && |d| + |f| > 0 && (!point ==> f == "")
  }

  function Mantissa(d: string, point: bool, f: string): string {
    if point then d + "." + f else d
  }

  /** What follows does not go on with the mantissa. */
  predicate Ends(point: bool, tail: string) {
    tail == "" || (!Digit(tail[0]) && (!point ==> tail[0] != '.'))
  }

  function Negated(minus: bool, x: real): real {
    if minus then -x else x
  }

  /** Digits that stand behind a prefix. */
  lemma {:induction false} DigitsBehind(prefix: string, t: string, i: nat)
    requires i <= |t|
    ensures DigitsEnd(prefix + t, |prefix| + i) == |prefix| + DigitsEnd(t, i)
    decreases |t| - i
  {
    var u := prefix + t;
    if i < |t| {
      assert u[|prefix| + i] == t[i];
      DigitsBehind(prefix, t, i + 1);
    }
  }

  lemma DigitsThen(prefix: string, d: string, tail: string)
    requires AllDigits(d) && (tail == "" || !Digit(tail[0]))
    ensures DigitsEnd(prefix + (d + tail), |prefix|) == |prefix| + |d|
  {
    DigitsEndOf(d + tail, d, 0, tail);
    DigitsBehind(prefix, d + tail, 0);
  }

  /** What stands behind the digits before the point. */
  function Fraction(point: bool, f: string, tail: string): string {
    if point then "." + (f + tail) else tail
  }

  lemma Regrouped(a: string, b: string, c: string)
    ensures (a + b) + c == a + (b + c)
  {
  }

  lemma MantissaJoined(sign: string, d: string, point: bool, f: string, tail: string)
    requires IsMantissa(d, point, f)
    ensures sign + Mantissa(d, point, f) + tail == sign + (d + Fraction(point, f, tail))
    ensures point ==> sign + Mantissa(d, point, f) + tail == (sign + d + ".") + (f + tail)
  {
    hide AllDigits;
    Regrouped(sign, Mantissa(d, point, f), tail);
    if point {
      Regrouped(d + ".", f, tail);
      Regrouped(d, ".", f + tail);
      Regrouped(sign, d + ".", f + tail);
      Regrouped(sign, d, ".");
    }
  }

  lemma SignFound(sign: string, w: string)
    requires IsSign(sign) && (w == "" || (w[0] != '+' && w[0] != '-'))
    ensures SignEnd(sign + w, 0) == |sign|
  {
    assert w != "" ==> (sign + w)[|sign|] == w[0];
    assert |sign| == 1 ==> (sign + w)[0] == sign[0];
  }

  lemma FractionStart(d: string, point: bool, f: string, tail: string)
    requires IsMantissa(d, point, f) && Ends(point, tail)
    ensures var w, x := d + Fraction(point, f, tail), Fraction(point, f, tail);
            && w != "" && w[0] != '+' && w[0] != '-'
            && (x == "" || !Digit(x[0])) && (point <==> x != "" && x[0] == '.')
  {
    var w := d + Fraction(point, f, tail);
    assert d != "" ==> w[0] == d[0];
  }

  /** Whether a point stands behind sign and digits. */
  lemma PointParts(sign: string, d: string, x: string, t: string)
    requires t == sign + (d + x)
    ensures var j := |sign| + |d|;
            && j <= |t| && t[|sign|..j] == d && t[j..] == x
            && PointEnd(t, j) == if x != "" && x[0] == '.' then j + 1 else j
  {
    Middle(sign, d, x);
    var j := |sign| + |d|;
    assert x != "" ==> t[j] == t[j..][0];
  }

  /** Sign and digits, and whether a point stands behind them. */
  lemma WholeParts(sign: string, d: string, x: string, t: string)
    requires t == sign + (d + x) && IsSign(sign) && AllDigits(d) && (x == "" || !Digit(x[0]))
    requires d + x == "" || ((d + x)[0] != '+' && (d + x)[0] != '-')
    ensures var j := |sign| + |d|;
            && SignEnd(t, 0) == |sign| && DigitsEnd(t, |sign|) == j && t[|sign|..j] == d && t[j..] == x
            && PointEnd(t, j) == if x != "" && x[0] == '.' then j + 1 else j
  {
    hide DigitsEnd, SignEnd, PointEnd, AllDigits, IsSign;
    PointParts(sign, d, x, t);
    SignFound(sign, d + x);
    DigitsThen(sign, d, x);
  }

  /** Digits and what is behind them. */
  lemma DigitParts(before: string, f: string, tail: string, t: string)
    requires t == before + (f + tail) && AllDigits(f) && (tail == "" || !Digit(tail[0]))
    ensures var k := |before| + |f|;
            k <= |t| && DigitsEnd(t, |before|) == k && t[|before|..k] == f && t[k..] == tail
  {
    hide DigitsEnd, AllDigits;
    DigitsThen(before, f, tail);
    Middle(before, f, tail);
  }

  lemma MantissaParts(sign: string, d: string, point: bool, f: string, tail: string)
    requires IsSign(sign) && IsMantissa(d, point, f) && Ends(point, tail)
    ensures var t := sign + Mantissa(d, point, f) + tail;
            var a := |sign|;
            var j := a + |d|;
            var k := j + (if point then 1 else 0) + |f|;
            && SignEnd(t, 0) == a && DigitsEnd(t, a) == j && k <= |t| && t[a..j] == d && t[k..] == tail
            && PointEnd(t, j) == (if point then j + 1 else j)
            && (point ==> DigitsEnd(t, j + 1) == k && t[j + 1..k] == f)
  {
    hide DigitsEnd, SignEnd, PointEnd, AllDigits, Mantissa, IsSign;
    var t := sign + Mantissa(d, point, f) + tail;
    MantissaLength(d, point, f);
    MantissaJoined(sign, d, point, f, tail);
    FractionStart(d, point, f, tail);
    WholeParts(sign, d, Fraction(point, f, tail), t);
    if point {
      DigitParts(sign + d + ".", f, tail, t);
    }
  }

  lemma Middle(before: string, m: string, after: string)
    ensures var t := before + (m + after);
            t == (before + m) + after && t[|before|..|before| + |m|] == m && t[|before| + |m|..] == after
  {
  }

  /** The conversion of a text whose scan is known. */
  lemma StodScan(t: string, a: nat, j: nat, f: nat, k: nat, digits: string)
    requires SignEnd(t, 0) == a <= |t| && DigitsEnd(t, a) == j <= |t| && PointEnd(t, j) == f <= |t|
    requires k == (if f == j then j else DigitsEnd(t, f)) && f <= k && digits == t[a..j] + t[f..k]
    ensures digits == "" ==> Stod(t) == None
    ensures digits != "" ==>
              AllDigits(digits)
              && Stod(t) == Some(Scaled(a == 1 && t[0] == '-', NatValue(digits), Exponent(t, k) - (k - f)))
  {
    hide NatValue, Scaled, Exponent;
  }

  /** The value of a numeral, the exponent still as it is scanned. */
  lemma StodParts(sign: string, d: string, point: bool, f: string, tail: string)
    requires IsSign(sign) && IsMantissa(d, point, f) && Ends(point, tail)
    ensures var t := sign + Mantissa(d, point, f) + tail;
            var k := |t| - |tail|;
            && AllDigits(d + f)
            && Stod(t) == Some(Scaled(sign == "-", NatValue(d + f), Exponent(t, k) - |f|))
  {
    hide Scaled, DigitsEnd, NatValue, TenTo, Exponent, AllDigits, SignEnd, PointEnd, Stod, Mantissa;
    var t := sign + Mantissa(d, point, f) + tail;
    MantissaParts(sign, d, point, f, tail);
    MantissaLength(d, point, f);
    DigitsJoined(d, f);
    var a := |sign|;
    var j := a + |d|;
    var p := if point then j + 1 else j;
    var k := p + |f|;
    assert t[p..k] == f;
    assert |sign| == 1 ==> t[0] == sign[0];
    StodScan(t, a, j, p, k, d + f);
    assert k - p == |f|;
  }

  lemma MantissaLength(d: string, point: bool, f: string)
    requires IsMantissa(d, point, f)
    ensures |Mantissa(d, point, f)| == |d| + (if point then 1 else 0) + |f|
  {
  }

  lemma DigitsJoined(d: string, f: string)
    requires AllDigits(d) && AllDigits(f)
    ensures AllDigits(d + f)
  {
  }

  /** What is scanned as exponent is the rest of the text alone. */
  lemma ExponentIn(t: string, k: nat)
    requires k <= |t|
    ensures Exponent(t, k) == Exponent(t[k..], 0)
  {
    var u := t[k..];
    if k < |t| && (t[k] == 'e' || t[k] == 'E') {
      var a := SignEnd(t, k + 1);
      assert SignEnd(u, 1) == a - k;
      var j := DigitsEnd(t, a);
      SliceOfDrop(t, k, a, j);
      DigitsEndAt(u, a - k, j - k);
      assert u[a - k - 1] == t[a - 1];
    }
  }

  lemma SliceOfDrop(t: string, k: nat, a: nat, j: nat)
    requires k <= a <= j <= |t|
    ensures t[k..][a - k..j - k] == t[a..j]
  {
    var x, y := t[k..][a - k..j - k], t[a..j];
    assert |x| == |y| && forall i | 0 <= i < |x| :: x[i] == y[i];
  }

  predicate IsLetterE(c: char) {
    c == 'e' || c == 'E'
  }

  function Signed(minus: bool, n: nat): int {
    if minus then 0 - n else n
  }

  /** A complete exponent, and what may follow it. */
  lemma ExponentRead(c: char, sign: string, ed: string, tail: string)
    requires IsLetterE(c) && IsSign(sign) && AllDigits(ed) && ed != "" && (tail == "" || !Digit(tail[0]))
    ensures Exponent([c] + sign + ed + tail, 0) == Signed(sign == "-", NatValue(ed))
  {
    var u := [c] + sign + ed + tail;
    var a := 1 + |sign|;
    assert u[0] == c && u[a] == ed[0] && (|sign| == 1 ==> u[1] == sign[0]);
    assert SignEnd(u, 1) == a;
    var j := a + |ed|;
    assert u[a..j] == ed;
    assert j < |u| ==> u[j] == tail[0];
    DigitsEndAt(u, a, j);
  }

  /** No digit follows the letter and its sign, or there is no letter: there is no exponent. */
  predicate NoExponent(tail: string) {
    tail == "" || !IsLetterE(tail[0]) ||
    (if |tail| > 1 && (tail[1] == '+' || tail[1] == '-') then |tail| == 2 || !Digit(tail[2])
     else |tail| == 1 || !Digit(tail[1]))
  }

  lemma ExponentMissing(tail: string)
    requires NoExponent(tail)
    ensures Exponent(tail, 0) == 0
  {
    if tail != "" && IsLetterE(tail[0]) {
      var a := SignEnd(tail, 1);
      DigitsEndAt(tail, a, a);
    }
  }

  // ------------------------------------------------------------- the value of a numeral

  /** The value of the mantissa: its digits as one number, divided by ten for each one behind the point. */
  function MantissaValue(d: string, f: string): real
    requires AllDigits(d + f)
  {
    NatValue(d + f) as real / Pow10(|f|) as real
  }

  /** A sign and a mantissa; what stands behind and is not an exponent changes nothing. */
  lemma PlainNumeral(sign: string, d: string, point: bool, f: string, tail: string)
    requires IsSign(sign) && IsMantissa(d, point, f) && Ends(point, tail) && NoExponent(tail)
    ensures AllDigits(d + f)
    ensures Stod(sign + Mantissa(d, point, f) + tail) == Some(Negated(sign == "-", MantissaValue(d, f)))
  {
    hide Stod, Exponent, NatValue, NoExponent, Mantissa, Scaled, MantissaValue, Negated;
    var t := sign + Mantissa(d, point, f) + tail;
    var k := |t| - |tail|;
    StodParts(sign, d, point, f, tail);
    assert t[k..] == tail;
    ExponentIn(t, k);
    ExponentMissing(tail);
    PlainValue(sign == "-", d, f);
  }

  lemma PlainValue(minus: bool, d: string, f: string)
    requires AllDigits(d + f)
    ensures Scaled(minus, NatValue(d + f), 0 - |f|) == Negated(minus, MantissaValue(d, f))
  {
    hide Pow10, NatValue, TenTo;
    TenToNegative(|f|);
    Quotient(NatValue(d + f) as real, Pow10(|f|) as real, TenTo(0 - |f|));
  }

  /** Digits alone are the number they spell. */
  lemma DigitsAlone(d: string)
    requires AllDigits(d) && d != ""
    ensures Stod(d) == Some(NatValue(d) as real)
  {
    hide Stod, NatValue;
    PlainNumeral("", d, false, "", "");
    assert "" + d + "" == d && d + "" == d;
  }

  /** A sign, a mantissa and a complete exponent: the mantissa times, or divided by, that power of ten. */
  lemma ScaledNumeral(sign: string, d: string, point: bool, f: string, c: char, esign: string, ed: string, tail: string)
    requires IsSign(sign) && IsMantissa(d, point, f) && IsLetterE(c) && IsSign(esign)
    requires AllDigits(ed) && ed != "" && (tail == "" || !Digit(tail[0]))
    ensures AllDigits(d + f)
    ensures Stod(sign + Mantissa(d, point, f) + ([c] + esign + ed + tail)) ==
            Some(Negated(sign == "-", ScaledBy(MantissaValue(d, f), esign == "-", NatValue(ed))))
  {
    hide Stod, Exponent, NatValue, Mantissa, Scaled, ScaledBy, MantissaValue, Negated;
    var rest := [c] + esign + ed + tail;
    var t := sign + Mantissa(d, point, f) + rest;
    var k := |t| - |rest|;
    assert rest[0] == c;
    StodParts(sign, d, point, f, rest);
    assert t[k..] == rest;
    ExponentIn(t, k);
    ExponentRead(c, esign, ed, tail);
    ScaledValue(sign == "-", d, f, esign == "-", NatValue(ed));
  }

  function ScaledBy(x: real, down: bool, e: nat): real {
    if down then x / Pow10(e) as real else x * Pow10(e) as real
  }

  lemma ScaledValue(minus: bool, d: string, f: string, down: bool, e: nat)
    requires AllDigits(d + f)
    ensures Scaled(minus, NatValue(d + f), Signed(down, e) - |f|) == Negated(minus, ScaledBy(MantissaValue(d, f), down, e))
  {
    hide NatValue, Pow10, TenTo, Scaled;
    var n, w, p := NatValue(d + f) as real, Pow10(|f|) as real, Pow10(e) as real;
    TenToMinus(Signed(down, e), |f|);
    if down {
      TenToNegative(e);
      Rearranged(n, w, p, 1.0 / p, TenTo(Signed(down, e) - |f|));
    } else {
      TenToPositive(e);
      Rearranged(n, w, p, p, TenTo(Signed(down, e) - |f|));
    }
    var r := TenTo(Signed(down, e) - |f|);
    assert MantissaValue(d, f) == n / w;
    assert n * r == ScaledBy(MantissaValue(d, f), down, e);
    ScaledIs(minus, NatValue(d + f), Signed(down, e) - |f|, r);
  }

  lemma ScaledIs(minus: bool, n: nat, e: int, r: real)
    requires r == TenTo(e)
    ensures Scaled(minus, n, e) == Negated(minus, n as real * r)
  {
  }

  lemma Rearranged(n: real, w: real, p: real, q: real, r: real)
    requires w > 0.0 && p > 0.0 && r == q / w
    ensures q == p ==> n * r == (n / w) * p
    ensures q == 1.0 / p ==> n * r == (n / w) / p
  {
    Exchange(n, q, w);
    if q == 1.0 / p {
      Quotient(n / w, p, q);
    }
  }

  lemma TenToPositive(e: nat)
    ensures TenTo(e) == Pow10(e) as real
  {
  }

  lemma Exchange(n: real, e: real, p: real)
    requires p > 0.0
    ensures n * (e / p) == (n / p) * e
  {
  }

  /** A leading minus negates and a leading plus changes nothing. */
  lemma LeadingSign(t: string)
    requires t == "" || (t[0] != '+' && t[0] != '-')
    ensures Stod("+" + t) == Stod(t)
    ensures Stod("-" + t) == match Stod(t) case Some(x) => Some(-x) case None => None
  {
    hide Exponent, TenTo, NatValue, Stod, DigitsEnd, PointEnd, SignEnd;
    SignedStod("+", t);
    SignedStod("-", t);
  }

  /** The digits a text starts with, a point and the digits behind it, and the rest. */
  lemma Decomposed(t: string) returns (d: string, point: bool, f: string, tail: string)
    ensures t == Mantissa(d, point, f) + tail && AllDigits(d) && AllDigits(f) && (!point ==> f == "") && Ends(point, tail)
  {
    var j := DigitsEnd(t, 0);
    d := t[0..j];
    point := j < |t| && t[j] == '.';
    if point {
      var k := DigitsEnd(t, j + 1);
      f, tail := t[j + 1..k], t[k..];
      assert t == t[0..j] + [t[j]] + t[j + 1..k] + t[k..];
    } else {
      f, tail := "", t[j..];
      assert t == t[0..j] + t[j..];
    }
  }

  lemma SignedStod(sign: string, t: string)
    requires |sign| == 1 && IsSign(sign) && (t == "" || (t[0] != '+' && t[0] != '-'))
    ensures Stod(sign + t) == match Stod(t) case Some(x) => Some(Negated(sign == "-", x)) case None => None
  {
    hide Stod, Mantissa, Scaled, Negated, Exponent, Ends;
    var d, point, f, tail := Decomposed(t);
    if |d| + |f| > 0 {
      var m := Mantissa(d, point, f);
      SignedNumeral(sign, d, point, f, tail);
      Regrouped(sign, m, tail);
    } else {
      NothingFound(t, d, point, f, tail);
      NoDigits("", t);
      NoDigits(sign, t);
      assert "" + t == t;
    }
  }

  lemma NothingFound(t: string, d: string, point: bool, f: string, tail: string)
    requires t == Mantissa(d, point, f) + tail && d == "" && f == "" && Ends(point, tail)
    ensures t == "" || !(Digit(t[0]) || (t[0] == '.' && |t| > 1 && Digit(t[1])))
  {
  }

  lemma SignedNumeral(sign: string, d: string, point: bool, f: string, tail: string)
    requires IsSign(sign) && IsMantissa(d, point, f) && Ends(point, tail)
    ensures Stod(Mantissa(d, point, f) + tail).Some?
    ensures Stod(sign + Mantissa(d, point, f) + tail) ==
            Some(Negated(sign == "-", Stod(Mantissa(d, point, f) + tail).value))
  {
    hide Stod, Mantissa, Scaled, Negated, Exponent, Ends, NatValue, AllDigits;
    StodOfTail("", d, point, f, tail);
    StodOfTail(sign, d, point, f, tail);
    assert "" + Mantissa(d, point, f) == Mantissa(d, point, f);
    NegatedScaled(sign == "-", NatValue(d + f), Exponent(tail, 0) - |f|);
    NegatedScaled(false, NatValue(d + f), Exponent(tail, 0) - |f|);
  }

  lemma StodOfTail(sign: string, d: string, point: bool, f: string, tail: string)
    requires IsSign(sign) && IsMantissa(d, point, f) && Ends(point, tail)
    ensures AllDigits(d + f)
    ensures Stod(sign + Mantissa(d, point, f) + tail) ==
            Some(Scaled(sign == "-", NatValue(d + f), Exponent(tail, 0) - |f|))
  {
    hide Stod, Mantissa, Scaled, Exponent, Ends, NatValue;
    var t := sign + Mantissa(d, point, f) + tail;
    StodParts(sign, d, point, f, tail);
    assert t[|t| - |tail|..] == tail;
    ExponentIn(t, |t| - |tail|);
  }

  lemma NegatedScaled(minus: bool, n: nat, e: int)
    ensures Negated(minus, Scaled(false, n, e)) == Scaled(minus, n, e)
  {
  }

  /** Without a digit where the mantissa should be there is no number. */
  lemma NoDigits(sign: string, t: string)
    requires IsSign(sign) && (sign == "" && t != "" ==> t[0] != '+' && t[0] != '-')
    requires t == "" || !(Digit(t[0]) || (t[0] == '.' && |t| > 1 && Digit(t[1])))
    ensures Stod(sign + t) == None
  {
    hide Exponent, NatValue;
    var u := sign + t;
    var a := |sign|;
    assert u[a..] == t;
    assert t != "" ==> u[a] == t[0];
    assert |t| > 1 ==> u[a + 1] == t[1];
    DigitsEndAt(u, a, a);
    if t != "" && t[0] == '.' {
      DigitsEndAt(u, a + 1, a + 1);
    }
  }

  // ---------------------------------------------------------------- reading in a text

  /** Characters that numbers are made of. */
  predicate InNumber(c: char) {
    '0' <= c <= '9' || c == '+' || c == '-' || c == '.' || c == 'e' || c == 'E'
  }

  predicate IsBlank(t: string) {
    forall i | 0 <= i < |t| :: t[i] == ' ' || t[i] == '\n' || t[i] == '\r' || t[i] == '\t'
  }

  lemma {:induction false} BlanksSkipped(s: string, i: nat, j: nat)
    requires i <= j <= |s| && (forall k | i <= k < j :: Skippable(s[k])) && (j < |s| ==> !Skippable(s[j]))
    ensures SkipBlanks(s, i) == j
    decreases j - i
  {
    if i < j {
      BlanksSkipped(s, i + 1, j);
    }
  }

  /** The reader steps over blanks, takes all characters that a number may have, and converts them. */
  lemma NumberTaken(before: string, blank: string, t: string, rest: string)
    requires IsBlank(blank) && t != "" && (forall i | 0 <= i < |t| :: InNumber(t[i])) && (rest == "" || !InNumber(rest[0]))
    ensures ParseNumber(before + blank + t + rest, |before|) ==
            match Stod(t) case None => Unconverted case Some(x) => Number(x, |before| + |blank| + |t|)
  {
    hide Stod, SkipBlanks;
    var s := before + blank + t + rest;
    var i := |before| + |blank|;
    var j := i + |t|;
    assert s[i] == t[0];
    BlanksSkipped(s, |before|, i);
    assert s[i..j] == t;
    assert j < |s| ==> s[j] == rest[0];
    NumericEndAt(s, i, j);
  }

  /** Without such a character there is no number to read. */
  lemma NumberMissing(before: string, blank: string, rest: string)
    requires IsBlank(blank) && (rest == "" || !(InNumber(rest[0]) || IsBlank([rest[0]])))
    ensures ParseNumber(before + blank + rest, |before|) == NoNumber
  {
    var s := before + blank + rest;
    var i := |before| + |blank|;
    assert i < |s| ==> s[i] == rest[0] && [rest[0]][0] == rest[0];
    BlanksSkipped(s, |before|, i);
  }

  // ------------------------------------------------------------------------- printing

  lemma {:induction false} NoLeadingZero(n: nat)
    ensures |Dec(n)| > 1 ==> Dec(n)[0] != '0'
    ensures n > 0 ==> Dec(n)[0] != '0'
    decreases n
  {
    if n >= 10 {
      NoLeadingZero(n / 10);
      assert Dec(n)[0] == Dec(n / 10)[0];
    }
  }

  function Magnitude(x: real): real {
    if x < 0.0 then -x else x
  }

  /** Every number is printed as a minus if it is negative, digits without a leading zero, a point and six digits;
      the digits are the nearest number of millionths, the even one of two that are equally near. */
  lemma PrintShape(x: real) returns (d: string, f: string)
    ensures PrintNumber(x) == (if x < 0.0 then "-" else "") + d + "." + f
    ensures AllDigits(d) && AllDigits(f) && AllDigits(d + f) && |f| == 6 && d != "" && (|d| > 1 ==> d[0] != '0')
    ensures var n, y := NatValue(d + f), Magnitude(x) * 1000000.0;
            && -0.5 <= n as real - y <= 0.5
            && (n as real - y == 0.5 || n as real - y == -0.5 ==> n % 2 == 0)
  {
    hide Dec, Padded, NatValue;
    var n := Millionths(Magnitude(x));
    assert Pow10(6) == 1000000 by { assert Pow10(3) == 1000; }
    d, f := Dec(n / 1000000), Padded(n % 1000000, 6);
    NoLeadingZero(n / 1000000);
    NatValueAppend(d, f);
    assert NatValue(d + f) == (n / 1000000) * 1000000 + n % 1000000 == n;
    assert PrintNumber(x) == (if x < 0.0 then "-" else "") + (d + "." + f);
    assert (if x < 0.0 then "-" else "") + (d + "." + f) == (if x < 0.0 then "-" else "") + d + "." + f;
  }

  lemma PrintedText(sign: string, d: string, f: string)
    requires IsSign(sign) && sign != "+" && AllDigits(d) && d != ""
    ensures var t := sign + Mantissa(d, true, f) + "";
            t == sign + d + "." + f && t != "" && (t[0] == '-' <==> sign == "-")
  {
    var t := sign + Mantissa(d, true, f) + "";
    assert t[0] == if sign == "-" then '-' else d[0];
  }

  lemma Nearest(n: real, y: real, x: real)
    requires y == x * 1000000.0 && -0.5 <= n - y <= 0.5
    ensures -0.0000005 <= n / 1000000.0 - x <= 0.0000005
  {
  }

  /** Every number, negative or not, is off by at most half a millionth when its print is converted again. */
  lemma PrintedValue(x: real)
    ensures Stod(PrintNumber(x)).Some?
    ensures var r := Stod(PrintNumber(x)).value; -0.0000005 <= r - x <= 0.0000005
    ensures PrintNumber(x) != "" && (PrintNumber(x)[0] == '-' <==> x < 0.0)
  {
    hide Stod, NatValue, Mantissa, PrintNumber;
    var d, f := PrintShape(x);
    assert Pow10(6) == 1000000 by { assert Pow10(3) == 1000; }
    var sign := if x < 0.0 then "-" else "";
    PlainNumeral(sign, d, true, f, "");
    PrintedText(sign, d, f);
    var n, y := NatValue(d + f) as real, Magnitude(x) * 1000000.0;
    Nearest(n, y, Magnitude(x));
  }

  // ------------------------------------------------------------------- in a container

  /** A numeral that starts with a digit, alone in an array, is read as its value. */
  lemma NumeralInArray(t: string, x: real)
    requires t != "" && '0' <= t[0] <= '9' && (forall i | 0 <= i < |t| :: InNumber(t[i])) && Stod(t) == Some(x)
    ensures ParseArray("[" + t + "]", 0) == Read(Some(|t| + 2), [Num(x)])
  {
    hide Stod, ParseArray;
    var s := "[" + t + "]";
    var elems := ElemsNext("", CNumber(t), ElemsEnd(""));
    assert ElemsText(ElemsEnd("")) == "]";
    assert ElemsText(elems) == t + "]";
    assert "" + Text(CArray(elems)) == s && s[0..] == s;
    assert AllNumeric(t) && Derives(CNumber(t));
    assert ElemsDerives(ElemsEnd(""), false);
    assert Derives(CArray(elems));
    assert At(s, 0, "" + Text(CArray(elems)));
    assert Denote(CArray(elems)) == Arr([Num(x)]) by {
      assert Denote(CNumber(t)) == Num(x);
      var none: seq<Value> := [];
      assert none + [Num(x)] == [Num(x)];
      assert ElemsInto(elems, none) == ElemsInto(ElemsEnd(""), none + [Num(x)]);
    }
    assert ArrayDerivation(s, 0, |s|, [Num(x)], "", elems);
    ArrayLanguage(s, 0, |s|, [Num(x)]);
  }

  /** An array of digits alone holds the number they spell. */
  lemma DigitsInArray(d: string)
    requires AllDigits(d) && d != ""
    ensures ParseArray("[" + d + "]", 0) == Read(Some(|d| + 2), [Num(NatValue(d) as real)])
  {
    hide Stod, ParseArray, NatValue;
    DigitsAlone(d);
    NumeralInArray(d, NatValue(d) as real);
  }
}
