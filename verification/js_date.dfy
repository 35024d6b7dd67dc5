/** The parts of JavaScript's `Date` that the spreadsheet date handling uses:
    the component constructor with its rollover, `new Date(number)`, the field
    getters and TimeClip. Time values are milliseconds from 1970-01-01T00:00
    in a single fixed zone: the local zone is taken to be UTC. */
module JsDate {
  import opened JsText
  import opened Calendar

  const MsPerSecond := 1000
  const MsPerMinute := 60000
  const MsPerHour := 3600000
  const MsPerDay := 86400000

  /** The largest magnitude of a time value: 8.64e15 ms, 100 million days. */
  const MaxTime := 8640000000000000

  /** A `Date`'s time value: NaN (an Invalid Date) or whole milliseconds. */
  datatype Time = Invalid | Valid(ms: int)

  /** TimeClip: a finite value beyond +-8.64e15 is NaN; otherwise it is
      truncated towards zero. */
  function TimeClip(v: real): (t: Time)
    ensures t.Valid? <==> -MaxTime as real <= v <= MaxTime as real
    ensures t.Valid? ==> -MaxTime <= t.ms <= MaxTime
    ensures t.Valid? && v == v.Floor as real ==> t.ms == v.Floor
  {
    if v < -MaxTime as real || v > MaxTime as real then Invalid
    else if v >= 0.0 then Valid(v.Floor)
    else Valid(-((-v).Floor))
  }

  /** The date and time fields the getters report: month 1-12 (`getMonth() + 1`). */
  datatype Fields = Fields(year: int, month: int, day: int, hour: int, minute: int, second: int)

  predicate ValidFields(f: Fields) {
    ValidCivil(Civil(f.year, f.month, f.day))
    && 0 <= f.hour < 24 && 0 <= f.minute < 60 && 0 <= f.second < 60
  }

  /** MakeTime for whole hours, minutes and seconds. */
  function MakeTime(h: int, mi: int, s: int): int {
    h * MsPerHour + mi * MsPerMinute + s * MsPerSecond
  }

  /** The time value at the start of the second the fields name. */
  function MsOf(f: Fields): int
    requires ValidFields(f)
  {
    DaysFromCivil(Civil(f.year, f.month, f.day)) * MsPerDay + MakeTime(f.hour, f.minute, f.second)
  }

  /** The getters `getFullYear`, `getMonth() + 1`, `getDate`, `getHours`,
      `getMinutes` and `getSeconds` on time value `ms`: valid fields naming the
      second that contains `ms`. */
  function FieldsOf(ms: int): (f: Fields)
    ensures ValidFields(f)
    ensures MsOf(f) <= ms < MsOf(f) + MsPerSecond
  {
    var day := ms / MsPerDay;
    var c := CivilFromDays(day);
    var f := Fields(c.year, c.month, c.day, (ms / MsPerHour) % 24, (ms / MsPerMinute) % 60, (ms / MsPerSecond) % 60);
    TimeOfDay(ms);
    f
  }

  lemma DivModUnique(a: int, b: int, q: int, r: int)
    requires b > 0 && 0 <= r < b && a == q * b + r
    ensures a / b == q && a % b == r
  {
    var q' := a / b;
    var r' := a % b;
    assert a == q' * b + r';
    var k := q' - q;
    assert k * b == r - r';
    MulAtLeast(k, b);
    MulAtLeast(-k, b);
  }

  lemma MulAtLeast(k: int, b: int)
    requires b > 0
    ensures k >= 1 ==> k * b >= b
  {
    if k >= 1 {
      assert k * b == (k - 1) * b + b;
      assert (k - 1) * b >= 0;
    }
  }

  /** The hour, minute and second getters decompose the time within the day. */
  lemma TimeOfDay(ms: int)
    ensures var t := ms % MsPerDay;
      t == MakeTime((ms / MsPerHour) % 24, (ms / MsPerMinute) % 60, (ms / MsPerSecond) % 60) + ms % MsPerSecond
  {
    DivDiv(ms, MsPerHour, 24);
    DivDiv(ms, MsPerMinute, 60);
    DivDiv(ms, MsPerSecond, 60);
  }

  /** Dividing by `b` and then by `c` is dividing by `b * c`; the remainder
      by `b * c` is made of the two remainders. */
  lemma DivDiv(a: int, b: int, c: int)
    requires b > 0 && c > 0
    ensures a % (b * c) == ((a / b) % c) * b + a % b
  {
    var q, r := a / b, a % b;
    var q2, r2 := q / c, q % c;
    assert a == q2 * (b * c) + (r2 * b + r) by {
      assert a == q * b + r;
      assert q * b == q2 * (b * c) + r2 * b by {
        assert q == q2 * c + r2;
      }
    }
    assert r2 * b + r < b * c by {
      MulAtMost(r2, c - 1, b);
      assert (c - 1) * b == b * c - b;
    }
    assert 0 <= r2 * b by { MulAtLeast(r2 + 1, b); }
    DivModUnique(a, b * c, q2, r2 * b + r);
  }

  lemma MulAtMost(x: int, y: int, b: int)
    requires b > 0 && x <= y
    ensures x * b <= y * b
  {
    MulAtLeast(y - x, b);
    assert y * b - x * b == (y - x) * b;
  }

  /** Reading the fields of the time value they name gives them back. */
  lemma FieldsRoundTrip(f: Fields)
    requires ValidFields(f)
    ensures FieldsOf(MsOf(f)) == f
  {
    var c := Civil(f.year, f.month, f.day);
    var t := MakeTime(f.hour, f.minute, f.second);
    var ms := MsOf(f);
    DivModUnique(ms, MsPerDay, DaysFromCivil(c), t);
    CivilRoundTrip(c);
    var g := FieldsOf(ms);
    DivModUnique(ms, MsPerHour, DaysFromCivil(c) * 24 + f.hour, f.minute * MsPerMinute + f.second * MsPerSecond);
    DivModUnique(DaysFromCivil(c) * 24 + f.hour, 24, DaysFromCivil(c), f.hour);
    DivModUnique(ms, MsPerMinute, DaysFromCivil(c) * 1440 + f.hour * 60 + f.minute, f.second * MsPerSecond);
    DivModUnique(DaysFromCivil(c) * 1440 + f.hour * 60 + f.minute, 60, DaysFromCivil(c) * 24 + f.hour, f.minute);
    DivModUnique(ms, MsPerSecond, DaysFromCivil(c) * 86400 + f.hour * 3600 + f.minute * 60 + f.second, 0);
    DivModUnique(DaysFromCivil(c) * 86400 + f.hour * 3600 + f.minute * 60 + f.second, 60,
                 DaysFromCivil(c) * 1440 + f.hour * 60 + f.minute, f.second);
  }

  // ---------------------------------------------------------------------------
  // Construction

  /** MakeDay: the day number of day `dt` of month `m` (0-based, any integer)
      of year `y`; months beyond 0..11 carry into the year and days beyond the
      month's length carry into later months. */
  function MakeDay(y: int, m: int, dt: int): int {
    DaysFromCivil(Civil(y + m / 12, m % 12 + 1, 1)) + dt - 1
  }

  /** `new Date(y, m, d, h, mi, s)` on whole-number arguments: years 0-99 mean
      1900-1999, every component rolls over, and the result is clipped. */
  function Construct(y: int, m: int, d: int, h: int, mi: int, s: int): (t: Time)
    ensures 100 <= y ==> t == TimeClip((MakeDay(y, m, d) * MsPerDay + MakeTime(h, mi, s)) as real)
  {
    var year := if 0 <= y <= 99 then 1900 + y else y;
    TimeClip((MakeDay(year, m, d) * MsPerDay + MakeTime(h, mi, s)) as real)
  }

  /** For components already in range the constructor does no rolling over:
      it yields exactly the time value the fields name. */
  lemma ConstructInRange(f: Fields)
    requires ValidFields(f) && f.year >= 100
    requires -MaxTime <= MsOf(f) <= MaxTime
    ensures Construct(f.year, f.month - 1, f.day, f.hour, f.minute, f.second) == Valid(MsOf(f))
  {
    assert (f.month - 1) / 12 == 0 && (f.month - 1) % 12 == f.month - 1;
    var first := Civil(f.year, f.month, 1);
    assert DaysFromCivil(first) + f.day - 1 == DaysFromCivil(Civil(f.year, f.month, f.day));
  }

  /** The constructor may roll over: 31 February 2024 is 2 March 2024. */
  lemma ConstructRollsOver()
    ensures Construct(2024, 1, 31, 0, 0, 0) == Construct(2024, 2, 2, 0, 0, 0)
  {
    assert MakeDay(2024, 1, 31) == DaysFromCivil(Civil(2024, 2, 1)) + 30;
    assert MakeDay(2024, 2, 2) == DaysFromCivil(Civil(2024, 3, 1)) + 1;
    assert DaysFromCivil(Civil(2024, 3, 1)) == DaysFromCivil(Civil(2024, 2, 1)) + 29;
  }

  // ---------------------------------------------------------------------------
  // Formatting

  /** `DD/MM/YYYY hh:mm:ss` with every field but the year padded to two
      digits; the year is written as `toString` writes it. */
  function FormatFields(f: Fields): string {
    Stamp(Pad2Int(f.day), Pad2Int(f.month), IntToString(f.year), Pad2Int(f.hour), Pad2Int(f.minute), Pad2Int(f.second))
  }

  /** The layout of a printed date, given its printed fields. */
  function Stamp(d: string, m: string, y: string, h: string, mi: string, s: string): string {
    d + "/" + m + "/" + y + " " + h + ":" + mi + ":" + s
  }

  /** `n.toString().padStart(2, '0')` for any integer. */
  function Pad2Int(n: int): (r: string)
    ensures n >= 0 ==> r == Pad2(n)
  {
    if n >= 0 then Pad2(n) else IntToString(n)
  }

  /** What the portal's date formatter prints for a `Date`: every getter of an
      Invalid Date is NaN, and `NaN.toString()` is already wider than two. */
  function FormatDate(t: Time): (r: string)
    ensures t.Invalid? ==> r == "NaN/NaN/NaN NaN:NaN:NaN"
    ensures t.Valid? ==> r == FormatFields(FieldsOf(t.ms))
  {
    match t
    case Invalid => "NaN/NaN/NaN NaN:NaN:NaN"
    case Valid(ms) => FormatFields(FieldsOf(ms))
  }
}
