/** JavaScript numbers as the portal uses them: `parseFloat`, `toFixed(2)` and
    `toString`. A finite number is an exact decimal `mant * 10^exp`; binary
    floating-point rounding is not modelled. */
module JsNumber {
  import opened JsText

  /** The finite decimal `mant * 10^exp`. */
  datatype Dec = Dec(mant: int, exp: int)

  /** A JavaScript number: NaN, an infinity, or a finite decimal. */
  datatype JsNum = NaN | PosInf | NegInf | Finite(d: Dec)

  function Abs(x: int): nat {
    if x < 0 then -x else x
  }

  /** JavaScript truthiness of a number: everything except NaN and zero. */
  predicate Truthy(x: JsNum) {
    match x
    case NaN => false
    case Finite(d) => d.mant != 0
    case _ => true
  }

  /** `x > 0`. */
  predicate Positive(x: JsNum) {
    x.PosInf? || (x.Finite? && x.d.mant > 0)
  }

  /** The exact value of a decimal. */
  function ToReal(d: Dec): real {
    if d.exp >= 0 then (d.mant * Pow10(d.exp)) as real
    else d.mant as real / Pow10(-d.exp) as real
  }

  /** `Math.round(v)`: the nearest integer, ties towards +Infinity. */
  function MathRound(v: real): (n: int)
    ensures n as real - 0.5 <= v < n as real + 0.5
  {
    (v + 0.5).Floor
  }

  /** ToIntegerOrInfinity on a finite value: truncation towards zero. */
  function Trunc(v: real): (n: int)
    ensures v >= 0.0 ==> 0 <= n && n as real <= v < n as real + 1.0
    ensures v < 0.0 ==> n <= 0 && n as real - 1.0 < v <= n as real
  {
    if v >= 0.0 then v.Floor else -((-v).Floor)
  }

  // ---------------------------------------------------------------------------
  // parseFloat

  /** The longest prefix of `s` made of decimal digits. */
  function LeadingDigits(s: string): (r: string)
    ensures AllDigits(r) && StartsWith(s, r)
    ensures |r| < |s| ==> !IsDigit(s[|r|])
  {
    if s == [] || !IsDigit(s[0]) then [] else [s[0]] + LeadingDigits(s[1..])
  }

  /** The value of an optional exponent part `e[+-]digits` at the start of `s`;
      0 when `s` does not start with a complete exponent part. */
  function ExponentOf(s: string): int {
    if s == [] || (s[0] != 'e' && s[0] != 'E') then 0
    else
      var t := s[1..];
      var neg := t != [] && t[0] == '-';
      var u := if t != [] && (t[0] == '-' || t[0] == '+') then t[1..] else t;
      var ds := LeadingDigits(u);
      if ds == [] then 0
      else if neg then -(DigitsValue(ds) as int) else DigitsValue(ds)
  }

  /** `parseFloat(s)`: skips leading white space, reads an optional sign, then
      reads the rest with `ParseUnsigned`. */
  function ParseFloat(s: string): (x: JsNum)
  {
    var t := TrimStart(s);
    if t != [] && t[0] == '-' then ParseUnsigned(t[1..], true)
    else if t != [] && t[0] == '+' then ParseUnsigned(t[1..], false)
    else ParseUnsigned(t, false)
  }

  /** The pieces of a decimal literal at the start of a string: the digits
      before the point, the digits after it, and the text after both. */
  datatype Scan = Scan(whole: string, frac: string, after: string)

  /** Splits `u` into leading digits, an optional `.digits` part and the rest. */
  function ScanDecimal(u: string): (sc: Scan)
    ensures AllDigits(sc.whole) && AllDigits(sc.frac)
    ensures sc.whole == [] && sc.frac != [] ==> |u| >= 2 && u[0] == '.' && IsDigit(u[1])
    ensures sc.whole != [] ==> u != [] && IsDigit(u[0])
  {
    var whole := LeadingDigits(u);
    var rest := u[|whole|..];
    if rest != [] && rest[0] == '.' then
      var frac := LeadingDigits(rest[1..]);
      assert whole == [] && frac != [] ==> rest == u && u[1] == frac[0];
      Scan(whole, frac, rest[1 + |frac|..])
    else Scan(whole, [], rest)
  }

  /** The unsigned part of `parseFloat`: `Infinity`, or the longest prefix of
      the form `digits[.digits][e[+-]digits]` or `.digits[e[+-]digits]`; NaN
      when no digit precedes the exponent. `neg` is the sign already read. */
  function ParseUnsigned(u: string, neg: bool): (x: JsNum)
    ensures x.Finite? ==> (u != [] && IsDigit(u[0])) || (|u| >= 2 && u[0] == '.' && IsDigit(u[1]))
  {
    if StartsWith(u, "Infinity") then (if neg then NegInf else PosInf)
    else
      var sc := ScanDecimal(u);
      if sc.whole == [] && sc.frac == [] then NaN
      else
        FromScan(sc, neg)
  }

  lemma ScanPoint(u: string, whole: string, frac: string)
    requires AllDigits(whole) && AllDigits(frac)
    requires u == whole + "." + frac
    ensures ScanDecimal(u) == Scan(whole, frac, [])
  {
    assert u == whole + ("." + frac);
    LeadingDigitsStop(whole, "." + frac);
    var rest := u[|whole|..];
    assert rest == "." + frac;
    assert rest[1..] == frac;
    LeadingDigitsStop(frac, []);
    assert frac + [] == frac;
  }

  /** Reading `whole.frac` with nothing after it gives exactly the decimal it
      spells. */
  lemma ParseUnsignedPoint(u: string, whole: string, frac: string, neg: bool)
    requires AllDigits(whole) && whole != [] && AllDigits(frac)
    requires u == whole + "." + frac
    ensures ParseUnsigned(u, neg)
         == Finite(Dec(if neg then -(DigitsValue(whole + frac) as int) else DigitsValue(whole + frac), -|frac|))
  {
    PointNotInfinity(u, whole, frac);
    ScanPoint(u, whole, frac);
    AllDigitsConcat(whole, frac);
    ParseUnsignedWhole(u, whole, frac, neg);
  }

  lemma PointNotInfinity(u: string, whole: string, frac: string)
    requires AllDigits(whole) && whole != []
    requires u == whole + "." + frac
    ensures !StartsWith(u, "Infinity")
  {
    assert u[0] == whole[0];
  }

  /** A literal with digits before any point and nothing after it reads as
      its digits scaled by its fraction length. */
  lemma ParseUnsignedWhole(u: string, whole: string, frac: string, neg: bool)
    requires !StartsWith(u, "Infinity") && ScanDecimal(u) == Scan(whole, frac, [])
    requires whole != [] && AllDigits(whole + frac)
    ensures ParseUnsigned(u, neg)
         == Finite(Dec(if neg then -(DigitsValue(whole + frac) as int) else DigitsValue(whole + frac), -|frac|))
  {
    ParseUnsignedScan(u, neg);
    FromScanWhole(Scan(whole, frac, []), neg);
  }

  lemma FromScanWhole(sc: Scan, neg: bool)
    requires AllDigits(sc.whole) && AllDigits(sc.frac) && sc.after == []
    ensures AllDigits(sc.whole + sc.frac)
    ensures FromScan(sc, neg)
         == Finite(Dec(if neg then -(DigitsValue(sc.whole + sc.frac) as int) else DigitsValue(sc.whole + sc.frac), -|sc.frac|))
  {
    AllDigitsConcat(sc.whole, sc.frac);
    ExponentOfEmpty();
  }

  /** Reading a run of digits with nothing after it gives the integer it spells. */
  lemma ParseUnsignedDigits(u: string, neg: bool)
    requires AllDigits(u) && u != []
    ensures ParseUnsigned(u, neg) == Finite(Dec(if neg then -(DigitsValue(u) as int) else DigitsValue(u), 0))
  {
    NotInfinity(u, u, []);
    ScanDigits(u);
    assert u + [] == u;
    ParseUnsignedWhole(u, u, [], neg);
  }

  lemma ScanDigits(u: string)
    requires AllDigits(u)
    ensures ScanDecimal(u) == Scan(u, [], [])
  {
    assert u + [] == u;
    LeadingDigitsStop(u, []);
    assert u[|u|..] == [];
  }

  lemma ExponentOfEmpty()
    ensures ExponentOf([]) == 0
  {
  }

  lemma ParseUnsignedScan(u: string, neg: bool)
    requires !StartsWith(u, "Infinity")
    requires ScanDecimal(u).whole != []
    ensures ParseUnsigned(u, neg) == FromScan(ScanDecimal(u), neg)
  {
  }

  /** The number a scanned decimal literal with at least one digit denotes. */
  function FromScan(sc: Scan, neg: bool): (x: JsNum)
    requires AllDigits(sc.whole) && AllDigits(sc.frac)
  {
    var m := DigitsValue(sc.whole + sc.frac);
    Finite(Dec(if neg then -(m as int) else m, ExponentOf(sc.after) - |sc.frac|))
  }

  lemma NotInfinity(u: string, ds: string, rest: string)
    requires AllDigits(ds) && ds != [] && u == ds + rest
    ensures !StartsWith(u, "Infinity")
  {
    assert u[0] == ds[0];
  }

  // ---------------------------------------------------------------------------
  // Rounding and toFixed(2)

  /** `a / b` rounded to the nearest integer, ties upwards. */
  function RoundDiv(a: int, b: int): (r: int)
    requires b > 0
    ensures -b <= 2 * (a - r * b) < b
  {
    (2 * a + b) / (2 * b)
  }

  lemma DivNonNegative(a: int, b: int)
    requires a >= 0 && b > 0
    ensures a / b >= 0
  {
  }

  /** `|d| * 100` rounded to the nearest integer, ties upwards: the integer
      `toFixed(2)` prints for a number of magnitude `|d|`. */
  function Hundredths(d: Dec): (n: nat)
    ensures d.exp >= -2 ==> n == Abs(d.mant) * Pow10(d.exp + 2)
    ensures d.exp < -2 ==> NearestMultiple(Abs(d.mant), Pow10(-2 - d.exp), n)
  {
    if d.exp >= -2 then Abs(d.mant) * Pow10(d.exp + 2)
    else
      var b := Pow10(-2 - d.exp);
      var r := RoundDiv(Abs(d.mant), b);
      assert r >= 0 by { DivNonNegative(2 * Abs(d.mant) + b, 2 * b); }
      r
  }

  /** The number of hundredths `d` rounds to, half away from zero, with the
      sign of `d`. */
  function SignedHundredths(d: Dec): (p: int)
    ensures Abs(p) == Hundredths(d)
    ensures p < 0 ==> d.mant < 0
    ensures d.mant < 0 ==> p <= 0
  {
    if d.mant < 0 then -(Hundredths(d) as int) else Hundredths(d)
  }

  /** `n * b` is the multiple of `b` nearest to `a`, the larger one on a tie. */
  predicate NearestMultiple(a: int, b: int, n: int) {
    -b <= 2 * (a - n * b) < b
  }

  /** The digits of `n` hundredths with a decimal point before the last two:
      `"1234.50"` for 123450, `"0.05"` for 5. */
  function Fixed2(n: nat): string {
    var m := PadZeros(NatToString(n), 3);
    m[..|m| - 2] + "." + m[|m| - 2..]
  }

  /** `x.toFixed(2)`. */
  function ToFixed2(x: JsNum): (r: string)
    ensures x.Finite? ==> r == (if x.d.mant < 0 then "-" else "") + Fixed2(Hundredths(x.d))
    ensures x.NaN? ==> r == "NaN"
    ensures x.PosInf? ==> r == "Infinity"
    ensures x.NegInf? ==> r == "-Infinity"
  {
    match x
    case NaN => "NaN"
    case PosInf => "Infinity"
    case NegInf => "-Infinity"
    case Finite(d) => (if d.mant < 0 then "-" else "") + Fixed2(Hundredths(d))
  }

  /** A string `toFixed(2)` can print for a finite number: an optional minus,
      at least one digit, a point, exactly two digits. */
  predicate IsFixed2(s: string) {
    var t := if s != [] && s[0] == '-' then s[1..] else s;
    |t| >= 4 && t[|t| - 3] == '.' && AllDigits(t[..|t| - 3]) && AllDigits(t[|t| - 2..])
  }

  lemma ToFixed2Shape(x: JsNum)
    requires x.Finite?
    ensures IsFixed2(ToFixed2(x))
  {
    var whole, frac := Fixed2Split(Hundredths(x.d));
    SignedPointShape(x.d.mant < 0, whole, frac);
  }

  /** An optional minus, digits, a point and two digits has the shape. */
  lemma SignedPointShape(neg: bool, whole: string, frac: string)
    requires AllDigits(whole) && whole != [] && AllDigits(frac) && |frac| == 2
    ensures IsFixed2((if neg then "-" else "") + (whole + "." + frac))
  {
    var f := whole + "." + frac;
    var s := (if neg then "-" else "") + f;
    assert f[0] == whole[0];
    assert (if s != [] && s[0] == '-' then s[1..] else s) == f;
    assert f[|f| - 3] == '.';
    assert f[..|f| - 3] == whole && f[|f| - 2..] == frac;
  }

  /** Reading back what `toFixed(2)` printed gives the printed amount exactly:
      the rounded magnitude in hundredths, with the sign of the original. */
  lemma ParseFixed2(x: JsNum)
    requires x.Finite?
    ensures ParseFloat(ToFixed2(x)) == Finite(Dec(if x.d.mant < 0 then -(Hundredths(x.d) as int) else Hundredths(x.d), -2))
  {
    var n := Hundredths(x.d);
    var neg := x.d.mant < 0;
    assert ToFixed2(x) == (if neg then "-" else "") + Fixed2(n);
    ParseSignedFixed2(n, neg);
  }

  lemma ParseSignedFixed2(n: nat, neg: bool)
    ensures ParseFloat((if neg then "-" else "") + Fixed2(n)) == Finite(Dec(if neg then -(n as int) else n, -2))
  {
    var whole, frac := Fixed2Split(n);
    ParseSignedPoint(Fixed2(n), whole, frac, neg);
  }

  /** `parseFloat` of an optionally negated `whole.frac` is the decimal it spells. */
  lemma ParseSignedPoint(f: string, whole: string, frac: string, neg: bool)
    requires AllDigits(whole) && whole != [] && AllDigits(frac)
    requires f == whole + "." + frac
    ensures ParseFloat((if neg then "-" else "") + f)
         == Finite(Dec(if neg then -(DigitsValue(whole + frac) as int) else DigitsValue(whole + frac), -|frac|))
  {
    ParseUnsignedPoint(f, whole, frac, neg);
    FirstOfConcat(f, whole, "." + frac);
    SignedReadsAs(f, neg, ParseUnsigned(f, neg));
  }

  lemma SignedReadsAs(f: string, neg: bool, x: JsNum)
    requires f != [] && IsDigit(f[0]) && ParseUnsigned(f, neg) == x
    ensures ParseFloat((if neg then "-" else "") + f) == x
  {
    ParseFloatSign(f, neg);
  }

  lemma FirstOfConcat(u: string, a: string, b: string)
    requires a != [] && u == a + b
    ensures u != [] && u[0] == a[0]
  {
  }

  /** `parseFloat` of a string that starts with a digit, possibly after a
      minus, reads the sign and passes the rest to `ParseUnsigned`. */
  lemma ParseFloatSign(f: string, neg: bool)
    requires f != [] && IsDigit(f[0])
    ensures ParseFloat((if neg then "-" else "") + f) == ParseUnsigned(f, neg)
  {
    var s := (if neg then "-" else "") + f;
    assert TrimStart(s) == s;
    if neg {
      assert s[0] == '-' && s[1..] == f;
    } else {
      assert s == f;
    }
  }

  /** `Fixed2(n)` is a non-empty run of digits, a point and two digits, which
      together spell `n`. */
  lemma Fixed2Split(n: nat) returns (whole: string, frac: string)
    ensures Fixed2(n) == whole + "." + frac
    ensures AllDigits(whole) && whole != [] && AllDigits(frac) && |frac| == 2
    ensures DigitsValue(whole + frac) == n
  {
    var ns := NatToString(n);
    var m := PadZeros(ns, 3);
    assert AllDigits(m) by { assert m == ns || m == Zeros(3 - |ns|) + ns; }
    whole := m[..|m| - 2];
    frac := m[|m| - 2..];
    assert whole + frac == m;
    if |ns| < 3 { DigitsValueLeadingZeros(3 - |ns|, ns); }
  }

  lemma {:induction false} LeadingDigitsStop(ds: string, rest: string)
    requires AllDigits(ds)
    requires rest == [] || !IsDigit(rest[0])
    ensures LeadingDigits(ds + rest) == ds
    decreases |ds|
  {
    if ds != [] {
      assert (ds + rest)[1..] == ds[1..] + rest;
      LeadingDigitsStop(ds[1..], rest);
    } else {
      assert ds + rest == rest;
    }
  }

  // ---------------------------------------------------------------------------
  // toString

  /** `d` with trailing zeros of the mantissa moved into the exponent; zero
      becomes `Dec(0, 0)`. */
  function Canon(d: Dec): (c: Dec)
    ensures c.mant == 0 ==> c.exp == 0
    ensures c.mant != 0 ==> c.mant % 10 != 0
    ensures (c.mant < 0) == (d.mant < 0) && (c.mant == 0) == (d.mant == 0)
    decreases Abs(d.mant)
  {
    if d.mant == 0 then Dec(0, 0)
    else if d.mant % 10 == 0 then Canon(Dec(d.mant / 10, d.exp + 1))
    else d
  }

  /** `x.toString()` for a finite number in positional notation (exponential
      notation, used by JavaScript beyond 1e21 and below 1e-6, is not modelled). */
  function NumberToString(d: Dec): (r: string)
    ensures r != []
  {
    var c := Canon(d);
    var sign := if c.mant < 0 then "-" else "";
    var ds := NatToString(Abs(c.mant));
    if c.exp >= 0 then sign + ds + Zeros(c.exp)
    else if |ds| > -c.exp then sign + ds[..|ds| + c.exp] + "." + ds[|ds| + c.exp..]
    else sign + "0." + Zeros(-c.exp - |ds|) + ds
  }

  /** `x.toString()` for any JavaScript number. */
  function JsNumToString(x: JsNum): (r: string)
    ensures r != []
  {
    match x
    case NaN => "NaN"
    case PosInf => "Infinity"
    case NegInf => "-Infinity"
    case Finite(d) => NumberToString(d)
  }

  /** `parseFloat("NaN")` is NaN: the text starts with no digit. */
  lemma ParseNaNText()
    ensures ParseFloat("NaN") == NaN
  {
    var s := "NaN";
    assert !IsSpace(s[0]) && TrimStart(s) == s;
    assert !StartsWith(s, "Infinity");
    assert LeadingDigits(s) == [];
  }

  /** `parseFloat` reads back the infinity `toFixed` prints. */
  lemma ParsePosInfinityText()
    ensures ParseFloat("Infinity") == PosInf
  {
    var s := "Infinity";
    assert !IsSpace(s[0]) && TrimStart(s) == s;
    assert StartsWith(s, "Infinity");
  }

  /** ... and the negative one. */
  lemma ParseNegInfinityText()
    ensures ParseFloat("-Infinity") == NegInf
  {
    var s := "-Infinity";
    assert !IsSpace(s[0]) && TrimStart(s) == s;
    assert s[1..] == "Infinity";
    assert StartsWith("Infinity", "Infinity");
  }

  /** The number `toFixed(2)` denotes: a finite number rounded to two
      places, half away from zero; NaN and the infinities as they are. */
  function RoundedTo2(x: JsNum): (r: JsNum)
    ensures x.Finite? <==> r.Finite?
    ensures !x.Finite? ==> r == x
  {
    match x
    case Finite(d) => Finite(Dec(SignedHundredths(d), -2))
    case _ => x
  }

  /** Parsing what `toFixed(2)` printed gives the rounded number. */
  lemma ParseToFixed2(x: JsNum)
    ensures ParseFloat(ToFixed2(x)) == RoundedTo2(x)
  {
    match x
    case NaN => ParseNaNText();
    case PosInf => ParsePosInfinityText();
    case NegInf => ParseNegInfinityText();
    case Finite(_) => ParseFixed2(x);
  }
}
