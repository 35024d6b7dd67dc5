/** The contravention date of a search row: an Excel serial (a number, or a
    string of digits with an optional fraction), one of four day-first text
    shapes, or anything the generic `Date` parser accepts, printed as
    `DD/MM/YYYY hh:mm:ss`; other text is returned as it was given. */
module ContraventionDate {
  import opened Wrappers
  import opened JsText
  import opened JsNumber
  import opened Calendar
  import opened JsDate
  import opened Cells

  /** The serial number Excel gives to 1970-01-01. */
  const UnixEpochSerial := 25569

  /** `fromExcelSerial`: whole days and day fractions from 1970-01-01, rounded
      to the millisecond and passed to `new Date(ms)`. */
  function FromExcelSerial(serial: real): (t: Time)
    ensures t.Valid? ==> t.ms == MathRound((serial - UnixEpochSerial as real) * MsPerDay as real)
  {
    TimeClip(MathRound((serial - UnixEpochSerial as real) * MsPerDay as real) as real)
  }

  /** `/^\d+(\.\d+)?$/`: digits, optionally a point and more digits, nothing else. */
  predicate IsNumericText(t: string) {
    var w := LeadingDigits(t);
    w != [] && (w == t || (|t| >= |w| + 2 && t[|w|] == '.' && AllDigits(t[|w| + 1..])))
  }

  // ---------------------------------------------------------------------------
  // The four text shapes

  /** The capture groups of a matched shape; absent time groups are `None`. */
  datatype Groups = Groups(day: string, month: string, year: string,
                           hour: Option<string>, minute: Option<string>, second: Option<string>)

  /** What the capture groups of every shape look like. */
  predicate WellFormedGroups(g: Groups) {
    ShortDigits(g.day) && ShortDigits(g.month) && |g.year| == 4 && AllDigits(g.year)
    && (g.hour.Some? ==> ShortDigits(g.hour.value))
    && (g.minute.Some? ==> |g.minute.value| == 2 && AllDigits(g.minute.value))
    && (g.second.Some? ==> |g.second.value| == 2 && AllDigits(g.second.value))
  }

  predicate ShortDigits(s: string) {
    1 <= |s| <= 2 && AllDigits(s)
  }

  /** `(\d{1,2})S(\d{1,2})S(\d{4})` at the start of `t` for separator `S`,
      followed by something that is not a digit: the three groups and the rest. */
  function DateHead(t: string, sep: char): (r: Option<(string, string, string, string)>)
    ensures r.Some? ==> var (a, b, c, rest) := r.value;
      ShortDigits(a) && ShortDigits(b) && |c| == 4 && AllDigits(c)
      && t == a + [sep] + b + [sep] + c + rest && (rest == [] || !IsDigit(rest[0]))
  {
    var a := LeadingDigits(t);
    if !(1 <= |a| <= 2) || |t| == |a| || t[|a|] != sep then None
    else
      var t1 := t[|a| + 1..];
      var b := LeadingDigits(t1);
      if !(1 <= |b| <= 2) || |t1| == |b| || t1[|b|] != sep then None
      else
        var t2 := t1[|b| + 1..];
        var c := LeadingDigits(t2);
        if |c| != 4 then None
        else
          SplitAfter(t, a, sep);
          SplitAfter(t1, b, sep);
          SplitPrefix(t2, c);
          JoinParts(t, a, t1, b, t2, c, t2[4..], sep);
          Some((a, b, c, t2[4..]))
  }

  /** A string that starts with `a` and then `sep` is `a`, `sep` and the rest. */
  lemma SplitAfter(t: string, a: string, sep: char)
    requires StartsWith(t, a) && |t| > |a| && t[|a|] == sep
    ensures t == a + [sep] + t[|a| + 1..]
  {
    assert t == t[..|a|] + [t[|a|]] + t[|a| + 1..];
  }

  lemma SplitPrefix(t: string, a: string)
    requires StartsWith(t, a)
    ensures t == a + t[|a|..]
  {
    assert t == t[..|a|] + t[|a|..];
  }

  lemma JoinParts(t: string, a: string, t1: string, b: string, t2: string, c: string, rest: string, sep: char)
    requires t == a + [sep] + t1 && t1 == b + [sep] + t2 && t2 == c + rest
    ensures t == a + [sep] + b + [sep] + c + rest
  {
  }

  /** `\s+(\d{1,2}):(\d{2})` optionally followed by `:(\d{2})`, then the end:
      the hour, minute and optional second groups. */
  function TimeTail(r: string): (g: Option<(string, string, Option<string>)>)
    ensures g.Some? ==> var (h, mi, s) := g.value;
      ShortDigits(h) && |mi| == 2 && AllDigits(mi) && (s.Some? ==> |s.value| == 2 && AllDigits(s.value))
      && LeadingSpace(r) >= 1
      && r[LeadingSpace(r)..] == h + ":" + mi + (if s.Some? then ":" + s.value else "")
  {
    var k := LeadingSpace(r);
    if k == 0 then None else Clock(r[k..])
  }

  /** `(\d{1,2}):(\d{2})` optionally followed by `:(\d{2})`, then the end. */
  function Clock(u: string): (g: Option<(string, string, Option<string>)>)
    ensures g.Some? ==> var (h, mi, s) := g.value;
      ShortDigits(h) && |mi| == 2 && AllDigits(mi) && (s.Some? ==> |s.value| == 2 && AllDigits(s.value))
      && u == h + ":" + mi + (if s.Some? then ":" + s.value else "")
  {
    var h := LeadingDigits(u);
    if !(1 <= |h| <= 2) || |u| == |h| || u[|h|] != ':' then None
    else
      var u1 := u[|h| + 1..];
      var mi := LeadingDigits(u1);
      if |mi| != 2 then None
      else
        var u2 := u1[2..];
        SplitAfter(u, h, ':');
        SplitPrefix(u1, mi);
        if u2 == [] then
          Join3(u, h, u1, mi, [], ':');
          Some((h, mi, None))
        else if |u2| == 3 && u2[0] == ':' && AllDigits(u2[1..]) then
          SplitAfter(u2, [], ':');
          Join3(u, h, u1, mi, ":" + u2[1..], ':');
          Some((h, mi, Some(u2[1..])))
        else None
  }

  lemma Join3(u: string, h: string, u1: string, mi: string, tail: string, sep: char)
    requires u == h + [sep] + u1 && u1 == mi + tail
    ensures u == h + [sep] + mi + tail
  {
  }

  /** Shape `k` of the four, in the order they are tried:
      `D/M/YYYY H:mm:ss`, `D/M/YYYY H:mm`, `D/M/YYYY` and `D-M-YYYY`. */
  function MatchShape(t: string, k: nat): (g: Option<Groups>)
    requires k < 4
    ensures g.Some? ==> WellFormedGroups(g.value)
    ensures g.Some? && k >= 2 ==> g.value.hour.None? && g.value.minute.None? && g.value.second.None?
    ensures g.Some? && k == 1 ==> g.value.hour.Some? && g.value.minute.Some? && g.value.second.None?
  {
    match DateHead(t, if k == 3 then '-' else '/')
    case None => None
    case Some((a, b, c, rest)) =>
      if k >= 2 then (if rest == [] then Some(Groups(a, b, c, None, None, None)) else None)
      else
        match TimeTail(rest)
        case None => None
        case Some((h, mi, s)) =>
          if (k == 0) == s.Some? then Some(Groups(a, b, c, Some(h), Some(mi), s)) else None
  }

  /** `parseInt` of an optional group, 0 when the group did not take part. */
  function GroupValue(g: Option<string>): nat
    requires g.Some? ==> AllDigits(g.value)
  {
    match g
    case None => 0
    case Some(s) => DigitsValue(s)
  }

  /** `new Date(year, month - 1, day, hours, minutes, seconds)` from the groups. */
  function GroupsTime(g: Groups): Time
    requires AllDigits(g.day) && AllDigits(g.month) && AllDigits(g.year)
    requires g.hour.Some? ==> AllDigits(g.hour.value)
    requires g.minute.Some? ==> AllDigits(g.minute.value)
    requires g.second.Some? ==> AllDigits(g.second.value)
  {
    Construct(DigitsValue(g.year), DigitsValue(g.month) - 1, DigitsValue(g.day),
              GroupValue(g.hour), GroupValue(g.minute), GroupValue(g.second))
  }

  /** The loop over the shapes from shape `k` on: the first shape that matches
      and yields a valid `Date` wins; an invalid one moves on to the next. */
  function TryShapes(t: string, k: nat): (r: Option<Time>)
    requires k <= 4
    ensures r.Some? ==> r.value.Valid?
    decreases 4 - k
  {
    if k == 4 then None
    else match MatchShape(t, k)
      case Some(g) =>
        var time := GroupsTime(g);
        if time.Valid? then Some(time) else TryShapes(t, k + 1)
      case None => TryShapes(t, k + 1)
  }

  /** `parseContraventionDate`: nothing for a falsy cell; an Excel serial for a
      number or numeric text; a matched shape or a generic parse, formatted;
      otherwise the cell's own text, untrimmed. */
  function ParseContraventionDate(c: Cell, generic: string -> Time): (r: Option<string>)
    ensures r.None? <==> Falsy(c)
    ensures c.Num? && !Falsy(c) ==> r == Some(FormatDate(FromExcelSerial(ToReal(c.value))))
    ensures c.Str? && r.Some? && r.value != c.text ==> exists t :: r.value == FormatDate(t)
  {
    if Falsy(c) then None
    else match c
      case Num(d) => Some(FormatDate(FromExcelSerial(ToReal(d))))
      case Str(s) => Some(ParseDateText(s, generic))
  }

  /** The text branch: the trimmed text as a serial, then as one of the
      shapes, then through the generic parser; failing all three, the text
      itself. */
  function ParseDateText(s: string, generic: string -> Time): (r: string)
    ensures r != s ==> exists t :: r == FormatDate(t)
  {
    var t := Trim(s);
    match SerialText(t)
    case Some(time) => FormatDate(time)
    case None =>
      match TryShapes(t, 0)
      case Some(time) => FormatDate(time)
      case None =>
        var p := generic(t);
        if p.Valid? then FormatDate(p) else s
  }

  /** Numeric text read with `parseFloat` and taken as an Excel serial. */
  function SerialText(t: string): (r: Option<Time>)
    ensures r.Some? <==> IsNumericText(t) && !ParseFloat(t).NaN?
  {
    if IsNumericText(t) then
      match ParseFloat(t)
      case NaN => None
      case Finite(d) => Some(FromExcelSerial(ToReal(d)))
      case _ => Some(Invalid)
    else None
  }

  // ---------------------------------------------------------------------------
  // Properties

  /** `DateHead` finds exactly the strings its pattern describes. */
  lemma DateHeadComplete(a: string, b: string, c: string, rest: string, sep: char)
    requires ShortDigits(a) && ShortDigits(b) && |c| == 4 && AllDigits(c)
    requires !IsDigit(sep) && (rest == [] || !IsDigit(rest[0]))
    ensures DateHead(a + [sep] + b + [sep] + c + rest, sep) == Some((a, b, c, rest))
  {
    var t2 := c + rest;
    var t1 := b + [sep] + t2;
    var t := a + [sep] + t1;
    assert a + [sep] + b + [sep] + c + rest == t;
    Segment(t, a, sep, t1);
    Segment(t1, b, sep, t2);
    LeadingDigitsStop(c, rest);
    assert t2[4..] == rest;
    DateHeadSteps(t, t1, t2, a, b, c, rest, sep);
  }

  lemma DateHeadSteps(t: string, t1: string, t2: string, a: string, b: string, c: string, rest: string, sep: char)
    requires ShortDigits(a) && ShortDigits(b) && |c| == 4
    requires LeadingDigits(t) == a && |t| > |a| && t[|a|] == sep && t[|a| + 1..] == t1
    requires LeadingDigits(t1) == b && |t1| > |b| && t1[|b|] == sep && t1[|b| + 1..] == t2
    requires LeadingDigits(t2) == c && t2[4..] == rest
    ensures DateHead(t, sep) == Some((a, b, c, rest))
  {
  }

  /** Digits, then a non-digit separator: the digits are the leading run. */
  lemma Segment(t: string, a: string, sep: char, rest: string)
    requires AllDigits(a) && !IsDigit(sep) && t == a + [sep] + rest
    ensures LeadingDigits(t) == a && |t| > |a| && t[|a|] == sep && t[|a| + 1..] == rest
  {
    var u := [sep] + rest;
    assert t == a + u;
    LeadingDigitsStop(a, u);
    assert t[|a|..] == u by { SuffixOfConcat(t, a, u); }
    assert u[0] == sep && u[1..] == rest;
  }

  lemma SuffixOfConcat(t: string, a: string, u: string)
    requires t == a + u
    ensures t[|a|..] == u
  {
  }

  /** `Clock` finds exactly the strings its pattern describes. */
  lemma ClockComplete(h: string, mi: string, s: Option<string>)
    requires ShortDigits(h) && |mi| == 2 && AllDigits(mi)
    requires s.Some? ==> |s.value| == 2 && AllDigits(s.value)
    ensures Clock(h + ":" + mi + (if s.Some? then ":" + s.value else "")) == Some((h, mi, s))
  {
    var tail := if s.Some? then ":" + s.value else "";
    var u := h + ":" + mi + tail;
    assert u == h + (":" + (mi + tail));
    LeadingDigitsStop(h, ":" + (mi + tail));
    assert u[|h| + 1..] == mi + tail;
    LeadingDigitsStop(mi, tail);
    assert (mi + tail)[2..] == tail;
    if s.Some? {
      assert tail[1..] == s.value;
    }
  }

  /** The day numbers of the years a matched shape can name. */
  lemma DaysOfShapeYears(y: int)
    requires 99 <= y <= 10008
    ensures -700000 <= DaysBeforeYear(y) && DaysBeforeYear(y + 1) <= 3000000
  {
    if y > 99 { DaysBeforeYearMonotone(99, y); }
    if y + 1 < 10009 { DaysBeforeYearMonotone(y + 1, 10009); }
    assert DaysBeforeYear(99) >= -700000;
    assert DaysBeforeYear(10009) <= 3000000;
  }

  /** No matched shape is ever too far from 1970 for a `Date`: the loop over
      the shapes never passes over a match. */
  lemma ShapeTimeValid(g: Groups)
    requires WellFormedGroups(g)
    ensures GroupsTime(g).Valid?
  {
    assert DigitsValue(g.year) < 10000 by { DigitsValueBound(g.year); assert Pow10(4) == 10000; }
    SmallGroup(g.month);
    SmallGroup(g.day);
    if g.hour.Some? { SmallGroup(g.hour.value); }
    if g.minute.Some? { SmallGroup(g.minute.value); }
    if g.second.Some? { SmallGroup(g.second.value); }
    ConstructValid(DigitsValue(g.year), DigitsValue(g.month) - 1, DigitsValue(g.day),
                   GroupValue(g.hour), GroupValue(g.minute), GroupValue(g.second));
  }

  /** Components of at most four and two digits always make a valid `Date`. */
  lemma ConstructValid(y: int, m: int, d: int, h: int, mi: int, s: int)
    requires 0 <= y < 10000 && -1 <= m < 99 && 0 <= d < 100
    requires 0 <= h < 100 && 0 <= mi < 100 && 0 <= s < 100
    ensures Construct(y, m, d, h, mi, s).Valid?
  {
    var year := if 0 <= y <= 99 then 1900 + y else y;
    MakeDayBounds(year, m, d);
  }

  lemma SmallGroup(s: string)
    requires ShortDigits(s)
    ensures DigitsValue(s) < 100
  {
    DigitsValueBound(s);
    assert Pow10(2) == 100 && Pow10(1) == 10;
  }

  lemma MakeDayBounds(year: int, m: int, d: int)
    requires 100 <= year <= 9999 && -1 <= m <= 98 && 0 <= d < 100
    ensures -700000 <= MakeDay(year, m, d) <= 3000100
  {
    var ym := year + m / 12;
    assert 99 <= ym <= 10008;
    DaysOfShapeYears(ym);
    var c := Civil(ym, m % 12 + 1, 1);
    DayWithinYear(c);
    YearStep(ym);
  }

  /** The shape loop returns the first shape that matches. */
  lemma {:induction false} TryShapesFirstMatch(t: string, k: nat)
    requires k <= 4
    ensures TryShapes(t, k).Some? <==> exists j :: k <= j < 4 && MatchShape(t, j).Some?
    ensures k < 4 && MatchShape(t, k).Some? ==> TryShapes(t, k) == Some(GroupsTime(MatchShape(t, k).value))
    decreases 4 - k
  {
    if k < 4 {
      TryShapesFirstMatch(t, k + 1);
      if MatchShape(t, k).Some? {
        ShapeTimeValid(MatchShape(t, k).value);
      }
    }
  }

  /** Shapes that do not match are passed over. */
  lemma {:induction false} TryShapesSkip(t: string, j: nat, k: nat)
    requires j <= k < 4
    requires forall i :: j <= i < k ==> MatchShape(t, i).None?
    ensures TryShapes(t, j) == TryShapes(t, k)
    decreases k - j
  {
    if j < k {
      TryShapesSkip(t, j + 1, k);
    }
  }

  /** Text that is not a serial and matches shape `k` but none before it is
      printed from that shape's groups (`new Date(year, month - 1, day, h,
      mi, s)`), with the hours, minutes and seconds a shape does not capture
      taken as 0. */
  lemma ShapeTextFormatted(s: string, generic: string -> Time, k: nat)
    requires k < 4
    requires !IsNumericText(Trim(s)) && MatchShape(Trim(s), k).Some?
    requires forall j :: 0 <= j < k ==> MatchShape(Trim(s), j).None?
    ensures ParseDateText(s, generic) == FormatDate(GroupsTime(MatchShape(Trim(s), k).value))
    ensures var g := MatchShape(Trim(s), k).value;
      (k >= 1 ==> GroupValue(g.second) == 0) && (k >= 2 ==> GroupValue(g.hour) == 0 && GroupValue(g.minute) == 0)
  {
    TryShapesSkip(Trim(s), 0, k);
    TryShapesFirstMatch(Trim(s), k);
  }

  /** Fields every part of which prints in the widths the first shape reads. */
  predicate Printable(f: Fields) {
    1000 <= f.year <= 9999 && 0 <= f.month < 100 && 0 <= f.day < 100
    && 0 <= f.hour < 100 && 0 <= f.minute < 100 && 0 <= f.second < 100
  }

  /** The groups shape 0 captures from a printed date. */
  function FormatGroups(f: Fields): Groups
    requires Printable(f)
  {
    Groups(Pad2(f.day), Pad2(f.month), NatToString(f.year), Some(Pad2(f.hour)), Some(Pad2(f.minute)), Some(Pad2(f.second)))
  }

  /** A date this module prints with a four-digit year reads back as itself. */
  lemma FormattedRoundTrip(f: Fields, generic: string -> Time)
    requires ValidFields(f) && 1000 <= f.year <= 9999
    ensures ParseContraventionDate(Str(FormatFields(f)), generic) == Some(FormatFields(f))
  {
    assert Printable(f);
    FormatIsTrimmed(f);
    FormatMatchesFirstShape(f);
    FormatGroupsTime(f);
    DateTextRoundTrip(f, generic);
  }

  lemma DateTextRoundTrip(f: Fields, generic: string -> Time)
    requires ValidFields(f) && Printable(f)
    requires Trim(FormatFields(f)) == FormatFields(f) && !IsNumericText(FormatFields(f))
    requires MatchShape(FormatFields(f), 0) == Some(FormatGroups(f))
    requires GroupsTime(FormatGroups(f)) == Valid(MsOf(f))
    ensures ParseDateText(FormatFields(f), generic) == FormatFields(f)
  {
    var s := FormatFields(f);
    TryShapesFirstMatch(s, 0);
    assert TryShapes(s, 0) == Some(Valid(MsOf(f)));
    FieldsRoundTrip(f);
  }

  /** A printed date has no outer white space and is not an Excel serial. */
  lemma FormatIsTrimmed(f: Fields)
    requires Printable(f)
    ensures Trim(FormatFields(f)) == FormatFields(f) && !IsNumericText(FormatFields(f))
  {
    assert FormatFields(f) == Stamp(Pad2(f.day), Pad2(f.month), NatToString(f.year), Pad2(f.hour), Pad2(f.minute), Pad2(f.second));
    PrintedTrimmed(Pad2(f.day), Pad2(f.month), NatToString(f.year), Pad2(f.hour), Pad2(f.minute), Pad2(f.second));
  }

  /** `D/M/YYYY H:mm:ss` text starts and ends with a digit and is not numeric. */
  lemma PrintedTrimmed(d: string, m: string, y: string, h: string, mi: string, sec: string)
    requires ShortDigits(d) && |sec| == 2 && AllDigits(sec)
    ensures Trim(Stamp(d, m, y, h, mi, sec)) == Stamp(d, m, y, h, mi, sec)
    ensures !IsNumericText(Stamp(d, m, y, h, mi, sec))
  {
    var s := Stamp(d, m, y, h, mi, sec);
    var rest := m + "/" + y + " " + h + ":" + mi + ":" + sec;
    assert s == d + ['/'] + rest;
    assert s[0] == d[0];
    assert s[|s| - 1] == sec[1];
    TrimNoOuterSpace(s);
    NotNumeric(s, d, rest);
  }

  /** A printed date matches the first shape, with seconds. */
  lemma FormatMatchesFirstShape(f: Fields)
    requires Printable(f)
    ensures MatchShape(FormatFields(f), 0) == Some(FormatGroups(f))
  {
    YearDigits(f.year);
    assert FormatFields(f) == Stamp(Pad2(f.day), Pad2(f.month), NatToString(f.year), Pad2(f.hour), Pad2(f.minute), Pad2(f.second));
    ShapeZeroComplete(Pad2(f.day), Pad2(f.month), NatToString(f.year), Pad2(f.hour), Pad2(f.minute), Pad2(f.second));
  }

  /** Shape 0 matches every `D/M/YYYY H:mm:ss` text, capturing its fields. */
  lemma ShapeZeroComplete(d: string, m: string, y: string, h: string, mi: string, sec: string)
    requires ShortDigits(d) && ShortDigits(m) && |y| == 4 && AllDigits(y)
    requires ShortDigits(h) && |mi| == 2 && AllDigits(mi) && |sec| == 2 && AllDigits(sec)
    ensures MatchShape(Stamp(d, m, y, h, mi, sec), 0) == Some(Groups(d, m, y, Some(h), Some(mi), Some(sec)))
  {
    var clock := h + ":" + mi + (":" + sec);
    var rest := " " + clock;
    assert Stamp(d, m, y, h, mi, sec) == d + ['/'] + m + ['/'] + y + rest;
    DateHeadComplete(d, m, y, rest, '/');
    TimeTailComplete(rest, clock, h, mi, sec);
    ShapeZeroOf(Stamp(d, m, y, h, mi, sec), d, m, y, rest, h, mi, sec);
  }

  lemma TimeTailComplete(rest: string, clock: string, h: string, mi: string, sec: string)
    requires ShortDigits(h) && |mi| == 2 && AllDigits(mi) && |sec| == 2 && AllDigits(sec)
    requires clock == h + ":" + mi + (":" + sec) && rest == " " + clock
    ensures TimeTail(rest) == Some((h, mi, Some(sec)))
  {
    assert clock[0] == h[0] && IsDigit(h[0]);
    OneSpace(rest, clock);
    ClockComplete(h, mi, Some(sec));
  }

  lemma OneSpace(rest: string, u: string)
    requires rest == " " + u && u != [] && !IsSpace(u[0])
    ensures LeadingSpace(rest) == 1 && rest[1..] == u
  {
    assert rest[1] == u[0];
  }

  lemma ShapeZeroOf(t: string, d: string, m: string, y: string, rest: string, h: string, mi: string, sec: string)
    requires DateHead(t, '/') == Some((d, m, y, rest))
    requires TimeTail(rest) == Some((h, mi, Some(sec)))
    ensures MatchShape(t, 0) == Some(Groups(d, m, y, Some(h), Some(mi), Some(sec)))
  {
  }

  /** The groups of a printed date name the time value of its fields. */
  lemma FormatGroupsTime(f: Fields)
    requires ValidFields(f) && Printable(f)
    ensures GroupsTime(FormatGroups(f)) == Valid(MsOf(f))
  {
    assert GroupsTime(FormatGroups(f)) == Construct(f.year, f.month - 1, f.day, f.hour, f.minute, f.second);
    MsOfBound(f);
    ConstructInRange(f);
  }

  lemma MsOfBound(f: Fields)
    requires ValidFields(f) && 1000 <= f.year <= 9999
    ensures -MaxTime <= MsOf(f) <= MaxTime
  {
    DaysOfShapeYears(f.year);
    DayWithinYear(Civil(f.year, f.month, f.day));
  }

  lemma YearDigits(y: nat)
    requires 1000 <= y <= 9999
    ensures |NatToString(y)| == 4 && IntToString(y) == NatToString(y)
  {
    var s := NatToString(y);
    DigitsValueBound(s);
    if |s| < 4 {
      assert Pow10(|s|) <= Pow10(3) by { Pow10Monotone(|s|, 3); }
    }
    if |s| > 4 {
      DigitsValueBoundBelow(s);
      Pow10Monotone(4, |s| - 1);
    }
  }

  lemma {:induction false} Pow10Monotone(a: nat, b: nat)
    requires a <= b
    ensures Pow10(a) <= Pow10(b)
    decreases b - a
  {
    if a < b { Pow10Monotone(a, b - 1); }
  }

  /** Text that starts with one or two digits and a slash is not numeric. */
  lemma NotNumeric(s: string, d: string, rest: string)
    requires ShortDigits(d) && s == d + ['/'] + rest
    ensures !IsNumericText(s)
  {
    assert s == d + (['/'] + rest);
    LeadingDigitsStop(d, ['/'] + rest);
  }

  /** Trimmed text of digits with an optional fraction is always a finite
      number and is read as an Excel serial, before any shape is tried. */
  lemma NumericTextIsSerial(s: string, generic: string -> Time)
    requires IsNumericText(Trim(s))
    ensures ParseFloat(Trim(s)).Finite?
    ensures ParseDateText(s, generic) == FormatDate(FromExcelSerial(ToReal(ParseFloat(Trim(s)).d)))
  {
    NumericTextFinite(Trim(s));
    var x := FromExcelSerial(ToReal(ParseFloat(Trim(s)).d));
    assert SerialText(Trim(s)) == Some(x);
    DateTextSerial(s, generic, x);
  }

  lemma DateTextSerial(s: string, generic: string -> Time, x: Time)
    requires SerialText(Trim(s)) == Some(x)
    ensures ParseDateText(s, generic) == FormatDate(x)
  {
  }

  lemma NumericTextFinite(t: string)
    requires IsNumericText(t)
    ensures ParseFloat(t) == ParseUnsigned(t, false) && ParseFloat(t).Finite?
  {
    var w := LeadingDigits(t);
    ParseFloatSign(t, false);
    assert "" + t == t;
    SplitPrefix(t, w);
    NotInfinity(t, w, t[|w|..]);
    ParseUnsignedScan(t, false);
  }

  /** Whole-number text is the serial of its digits. */
  lemma DigitTextIsSerial(s: string, generic: string -> Time)
    requires Trim(s) != [] && AllDigits(Trim(s))
    ensures ParseDateText(s, generic) == FormatDate(FromExcelSerial(DigitsValue(Trim(s)) as real))
  {
    var t := Trim(s);
    DigitsAreNumeric(t);
    NumericTextFinite(t);
    ParseUnsignedDigits(t, false);
    var v := DigitsValue(t);
    assert ParseFloat(t) == Finite(Dec(v, 0));
    assert ToReal(Dec(v, 0)) == v as real by { assert Pow10(0) == 1; }
    NumericTextIsSerial(s, generic);
  }

  lemma DigitsAreNumeric(t: string)
    requires t != [] && AllDigits(t)
    ensures IsNumericText(t)
  {
    LeadingDigitsStop(t, []);
    assert t + [] == t;
  }

  /** Text that is neither a serial, nor any shape, nor anything the generic
      parser reads comes back exactly as it was given, white space included. */
  lemma UnreadTextKept(s: string, generic: string -> Time)
    requires !IsNumericText(Trim(s))
    requires forall k :: 0 <= k < 4 ==> MatchShape(Trim(s), k).None?
    requires generic(Trim(s)).Invalid?
    ensures ParseContraventionDate(Str(s), generic) == if s == [] then None else Some(s)
  {
    TryShapesFirstMatch(Trim(s), 0);
  }

  /** Serial 60 is 28 February 1900 and serial 61 is 1 March 1900: counting
      from 1970 skips the 29 February 1900 that Excel numbers as day 60. */
  lemma SerialSixtyAndSixtyOne(n: int)
    requires n == 60
    ensures FromExcelSerial(n as real).Valid? && FieldsOf(FromExcelSerial(n as real).ms) == Fields(1900, 2, 28, 0, 0, 0)
    ensures FromExcelSerial((n + 1) as real).Valid? && FieldsOf(FromExcelSerial((n + 1) as real).ms) == Fields(1900, 3, 1, 0, 0, 0)
  {
    Days1900();
    SerialOfDay(n, Fields(1900, 2, 28, 0, 0, 0));
    SerialOfDay(n + 1, Fields(1900, 3, 1, 0, 0, 0));
  }

  lemma Days1900()
    ensures ValidCivil(Civil(1900, 2, 28)) && DaysFromCivil(Civil(1900, 2, 28)) == 60 - UnixEpochSerial
    ensures ValidCivil(Civil(1900, 3, 1)) && DaysFromCivil(Civil(1900, 3, 1)) == 61 - UnixEpochSerial
  {
    assert !IsLeap(1900);
    assert LeapsBefore(1900) == 460 && LeapsBefore(1970) == 477;
    assert DaysBeforeYear(1900) == -25567;
    assert DaysBeforeMonth(1900, 2) == 31;
    assert DaysBeforeMonth(1900, 3) == 59;
  }

  /** A whole serial names midnight of the day that many days after 1970-01-01
      less the epoch's serial. */
  lemma SerialOfDay(n: int, f: Fields)
    requires ValidFields(f) && f.hour == 0 && f.minute == 0 && f.second == 0
    requires DaysFromCivil(Civil(f.year, f.month, f.day)) == n - UnixEpochSerial
    requires -100000000 <= n - UnixEpochSerial <= 100000000
    ensures FromExcelSerial(n as real).Valid? && FieldsOf(FromExcelSerial(n as real).ms) == f
  {
    WholeSerial(n);
    assert MsOf(f) == (n - UnixEpochSerial) * MsPerDay;
    FieldsRoundTrip(f);
  }

  /** A whole serial is exactly midnight of its day. */
  lemma WholeSerial(n: int)
    requires -100000000 <= n - UnixEpochSerial <= 100000000
    ensures FromExcelSerial(n as real) == Valid((n - UnixEpochSerial) * MsPerDay)
  {
    var k := (n - UnixEpochSerial) * MsPerDay;
    assert (n as real - UnixEpochSerial as real) * MsPerDay as real == k as real;
    assert MathRound(k as real) == k;
  }
}
