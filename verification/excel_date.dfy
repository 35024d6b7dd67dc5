/** The issue date of an ingested row: an Excel serial counted from
    1 January 1900, a string the generic `Date` parser reads, or "now". */
module ExcelDate {
  import opened JsText
  import opened JsNumber
  import opened Calendar
  import opened JsDate
  import opened Cells
  import opened ContraventionDate

  /** `new Date(1900, 0, 1).getTime()`: midnight at the start of 1900. */
  const Epoch1900 := -25567 * MsPerDay

  lemma Epoch1900IsConstructed()
    ensures Construct(1900, 0, 1, 0, 0, 0) == Valid(Epoch1900)
  {
    assert LeapsBefore(1900) == 460 && LeapsBefore(1970) == 477;
    assert DaysBeforeYear(1900) == -25567;
    assert MakeDay(1900, 0, 1) == -25567;
  }

  /** `parseExcelDate`: the current time for a falsy cell; for a number, the
      1900 epoch plus `serial - 2` days (Excel counts a 29 February 1900 that
      never was); for a string, whatever the generic parser reads from the
      untrimmed text, falling back to the current time. */
  function ParseExcelDate(c: Cell, now: int, generic: string -> Time): (t: Time)
    ensures Falsy(c) ==> t == Valid(now)
    ensures c.Str? && !Falsy(c) ==> t == if generic(c.text).Valid? then generic(c.text) else Valid(now)
    ensures c.Num? && !Falsy(c) ==> t == TimeClip(Epoch1900 as real + (ToReal(c.value) - 2.0) * MsPerDay as real)
  {
    if Falsy(c) then Valid(now)
    else match c
      case Num(d) =>
        Epoch1900IsConstructed();
        TimeClip(Construct(1900, 0, 1, 0, 0, 0).ms as real + (ToReal(d) - 2.0) * MsPerDay as real)
      case Str(s) =>
        var p := generic(s);
        if p.Valid? then p else Valid(now)
      case Empty => Valid(now)
  }

  /** The two serial readings agree: for any serial with at most five decimal
      places, counting `serial - 2` days from 1900 and `serial - 25569` days
      from 1970 give the same time. Such a serial is always a whole number of
      milliseconds, since 10^5 divides the 86 400 000 milliseconds of a day. */
  lemma SerialReadingsAgree(d: Dec, now: int, generic: string -> Time)
    requires d.mant != 0 && d.exp >= -5
    ensures ParseExcelDate(Num(d), now, generic) == FromExcelSerial(ToReal(d))
  {
    var n := WholeMs(d);
    var v := (ToReal(d) - UnixEpochSerial as real) * MsPerDay as real;
    assert Epoch1900 as real + (ToReal(d) - 2.0) * MsPerDay as real == v;
    assert MathRound(v) == n;
  }

  /** A serial with at most five decimal places is a whole number of
      milliseconds from 1970. */
  lemma WholeMs(d: Dec) returns (n: int)
    requires d.exp >= -5
    ensures (ToReal(d) - UnixEpochSerial as real) * MsPerDay as real == n as real
  {
    var u := ScaledToMs(d);
    n := u - UnixEpochSerial * MsPerDay;
  }

  lemma ScaledToMs(d: Dec) returns (u: int)
    requires d.exp >= -5
    ensures ToReal(d) * MsPerDay as real == u as real
  {
    if d.exp >= 0 {
      u := d.mant * Pow10(d.exp) * MsPerDay;
    } else {
      var k := -d.exp;
      var q := Pow10(5 - k);
      Pow10Split(5 - k, k);
      assert Pow10(5) == 100000;
      assert MsPerDay == 864 * Pow10(k) * q;
      u := d.mant * 864 * q;
      calc {
        ToReal(d) * MsPerDay as real;
        (d.mant as real / Pow10(k) as real) * (864 * Pow10(k) * q) as real;
        (d.mant * 864 * q) as real;
      }
    }
  }

  lemma {:induction false} Pow10Split(a: nat, b: nat)
    ensures Pow10(a) * Pow10(b) == Pow10(a + b)
    decreases a
  {
    if a > 0 {
      Pow10Split(a - 1, b);
    }
  }
}
