/** The charge column of the search layout: currency symbols, thousands
    separators and white space are removed, the rest is read with
    `parseFloat`, NaN becomes 0, and the amount is printed with `toFixed(2)`. */
module Charge {
  import opened Wrappers
  import opened JsText
  import opened JsNumber
  import opened Cells

  /** The characters of the class `[£$,\s]`. */
  predicate Stripped(c: char) {
    c == '£' || c == '$' || c == ',' || IsSpace(c)
  }

  /** `s.replace(/[£$,\s]/g, '')`. */
  function StripCharge(s: string): (r: string)
    ensures |r| <= |s|
    ensures forall i :: 0 <= i < |r| ==> !Stripped(r[i])
  {
    if s == [] then []
    else (if Stripped(s[0]) then [] else [s[0]]) + StripCharge(s[1..])
  }

  /** Stripping works character by character: it distributes over
      concatenation. */
  lemma {:induction false} StripChargeConcat(a: string, b: string)
    ensures StripCharge(a + b) == StripCharge(a) + StripCharge(b)
    decreases |a|
  {
    if a == [] {
      assert a + b == b;
    } else {
      assert (a + b)[1..] == a[1..] + b;
      StripChargeConcat(a[1..], b);
    }
  }

  /** A string without any of the stripped characters is left as it is. */
  lemma {:induction false} StripChargeKeeps(s: string)
    requires forall i :: 0 <= i < |s| ==> !Stripped(s[i])
    ensures StripCharge(s) == s
    decreases |s|
  {
    if s != [] {
      StripChargeKeeps(s[1..]);
    }
  }

  /** Stripping twice strips nothing more. */
  lemma StripChargeIdempotent(s: string)
    ensures StripCharge(StripCharge(s)) == StripCharge(s)
  {
    StripChargeKeeps(StripCharge(s));
  }

  /** The amount read from the charge cell: an absent cell or one with nothing
      left after stripping counts as `'0'`, and an unreadable amount as 0. */
  function ChargeValue(c: Cell): (x: JsNum)
    ensures !x.NaN?
  {
    var text := match CellString(c) case None => "" case Some(s) => StripCharge(s);
    var x := ParseFloat(if text == [] then "0" else text);
    if x.NaN? then Finite(Dec(0, 0)) else x
  }

  /** An absent charge is a charge of zero. */
  lemma EmptyChargeIsZero()
    ensures ChargeValue(Empty) == Finite(Dec(0, 0))
  {
    ParseZero();
  }

  /** A text charge with nothing left after stripping, or with a remainder
      `parseFloat` cannot read, counts as zero. */
  lemma UnreadableChargeIsZero(s: string)
    requires StripCharge(s) == [] || ParseFloat(StripCharge(s)).NaN?
    ensures ChargeValue(Str(s)) == Finite(Dec(0, 0))
  {
    if StripCharge(s) == [] { ParseZero(); }
  }

  /** Otherwise a text charge is `parseFloat` of its stripped text. */
  lemma ReadableChargeIsParsed(s: string)
    requires StripCharge(s) != [] && !ParseFloat(StripCharge(s)).NaN?
    ensures ChargeValue(Str(s)) == ParseFloat(StripCharge(s))
  {
  }

  /** A remainder that starts with neither a digit, a point, a sign nor
      `Infinity`'s capital cannot be read, so the charge is zero. */
  lemma LetterChargeIsZero(s: string)
    requires var t := StripCharge(s); t != [] && !IsDigit(t[0]) && !(t[0] in ".+-I")
    ensures ChargeValue(Str(s)) == Finite(Dec(0, 0))
  {
    var t := StripCharge(s);
    assert !Stripped(t[0]);
    UnreadableStart(t);
    UnreadableChargeIsZero(s);
  }

  /** `parseFloat` of text whose first character is none of the above is NaN. */
  lemma UnreadableStart(t: string)
    requires t != [] && !IsSpace(t[0]) && !IsDigit(t[0]) && !(t[0] in ".+-I")
    ensures ParseFloat(t).NaN?
  {
    assert TrimStart(t) == t;
    assert !StartsWith(t, "Infinity") by {
      if |t| >= 8 { assert t[..8][0] == t[0]; }
    }
    assert LeadingDigits(t) == [];
    assert t[0 as nat..] == t;
    var sc := ScanDecimal(t);
    assert sc.whole == [] && sc.frac == [];
  }

  /** A charge that strips to `whole.frac` is exactly the decimal those digits
      spell, whatever symbols, separators and spaces surrounded them. */
  lemma PointChargeValue(s: string, whole: string, frac: string)
    requires AllDigits(whole) && whole != [] && AllDigits(frac)
    requires StripCharge(s) == whole + "." + frac
    ensures ChargeValue(Str(s)) == Finite(Dec(DigitsValue(whole + frac), -|frac|))
  {
    ParseSignedPoint(whole + "." + frac, whole, frac, false);
    assert "" + (whole + "." + frac) == whole + "." + frac;
  }

  /** A charge that strips to a run of digits is the integer they spell. */
  lemma DigitChargeValue(s: string)
    requires AllDigits(StripCharge(s)) && StripCharge(s) != []
    ensures ChargeValue(Str(s)) == Finite(Dec(DigitsValue(StripCharge(s)), 0))
  {
    var t := StripCharge(s);
    ParseUnsignedDigits(t, false);
    ParseFloatSign(t, false);
    assert "" + t == t;
  }

  /** "£1,234.50" is 1234.50. */
  lemma PoundsWithSeparator()
    ensures ChargeValue(Str("£1,234.50")) == Finite(Dec(123450, -2))
  {
    PoundsStripped();
    assert AllDigits("1234") && AllDigits("50");
    PointChargeValue("£1,234.50", "1234", "50");
    DigitsExample();
  }

  lemma PoundsStripped()
    ensures StripCharge("£1,234.50") == "1234" + "." + "50"
  {
    assert "£1,234.50" == "£1," + "234.50";
    StripChargeConcat("£1,", "234.50");
    StripOfPoundOneComma();
    KeepsTail();
    assert "1" + "234.50" == "1234" + "." + "50";
  }

  lemma KeepsTail()
    ensures StripCharge("234.50") == "234.50"
  {
    var t := "234.50";
    assert forall i | 0 <= i < |t| :: t[i] in "0123456789.";
    StripChargeKeeps(t);
  }

  lemma StripOfPoundOneComma()
    ensures StripCharge("£1,") == "1"
  {
    assert "£1,"[1..] == "1,";
    assert "1,"[1..] == ",";
    assert ","[1..] == [];
    assert StripCharge(",") == [];
    assert StripCharge("1,") == "1";
  }

  lemma DigitsExample()
    ensures DigitsValue("1234" + "50") == 123450
  {
    assert "1234" + "50" == "123450";
    assert "123450"[..5] == "12345" && "12345"[..4] == "1234" && "1234"[..3] == "123";
    assert "123"[..2] == "12" && "12"[..1] == "1" && "1"[..0] == "";
  }

  /** "£" and "abc" are 0. */
  lemma UnreadableExamples()
    ensures ChargeValue(Str("£")) == Finite(Dec(0, 0))
    ensures ChargeValue(Str("abc")) == Finite(Dec(0, 0))
  {
    PoundSignIsZero();
    LettersAreZero();
  }

  lemma PoundSignIsZero()
    ensures ChargeValue(Str("£")) == Finite(Dec(0, 0))
  {
    assert StripCharge("£") == [];
    UnreadableChargeIsZero("£");
  }

  lemma LettersAreZero()
    ensures ChargeValue(Str("abc")) == Finite(Dec(0, 0))
  {
    StripChargeKeeps("abc");
    LetterChargeIsZero("abc");
  }

  lemma ParseZero()
    ensures ParseFloat("0") == Finite(Dec(0, 0))
  {
    ParseUnsignedDigits("0", false);
    ParseFloatSign("0", false);
    assert "" + "0" == "0";
  }

  /** `validChargeAmount.toFixed(2)`: the charge as printed in a search result. */
  function NormaliseCharge(c: Cell): (r: string)
    ensures r != "NaN"
    ensures r == "Infinity" || r == "-Infinity" || IsFixed2(r)
  {
    var x := ChargeValue(c);
    assert x.Finite? ==> IsFixed2(ToFixed2(x)) by {
      if x.Finite? { ToFixed2Shape(x); }
    }
    ToFixed2(x)
  }

  /** Reading back a printed charge gives exactly the charge rounded to two
      places, sign included, so negative charges are kept. */
  lemma NormaliseChargeReadsBack(c: Cell)
    requires ChargeValue(c).Finite?
    ensures var d := ChargeValue(c).d;
      ParseFloat(NormaliseCharge(c)) == Finite(Dec(if d.mant < 0 then -(Hundredths(d) as int) else Hundredths(d), -2))
  {
    ParseFixed2(ChargeValue(c));
  }
}
