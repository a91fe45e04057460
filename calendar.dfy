/**
 * The slice of Python's datetime the core uses: proleptic Gregorian dates in
 * years 1..9999, naive date-times to the second, timedelta arithmetic of
 * less than a day, strftime for "%Y-%m-%d" and "%H:%M", and strptime for
 * "%Y-%m-%d %H:%M" and "%Y-%m-%d %H:%M:%S".
 */
module Calendar {
  import opened Wrappers
  import opened Text

  const MinYear: int := 1
  const MaxYear: int := 9999
  const SecondsPerDay: int := 86400

  datatype Date = Date(year: int, month: int, day: int)

  predicate IsLeapYear(y: int) {
    y % 4 == 0 && (y % 100 != 0 || y % 400 == 0)
  }

  function DaysInMonth(y: int, m: int): (n: int)
    requires 1 <= m <= 12
    ensures 28 <= n <= 31
  {
    if m == 2 then (if IsLeapYear(y) then 29 else 28)
    else if m == 4 || m == 6 || m == 9 || m == 11 then 30
    else 31
  }

  /** The dates datetime.date accepts. */
  predicate ValidDate(d: Date) {
    MinYear <= d.year <= MaxYear && 1 <= d.month <= 12 && 1 <= d.day <= DaysInMonth(d.year, d.month)
  }

  /** Chronological order of dates. */
  predicate DateBefore(a: Date, b: Date) {
    || a.year < b.year
    || (a.year == b.year && (a.month < b.month || (a.month == b.month && a.day < b.day)))
  }

  /** date + timedelta(days=1); None past 9999-12-31, where Python raises OverflowError. */
  function NextDay(d: Date): (r: Option<Date>)
    requires ValidDate(d)
    ensures r.Some? ==> ValidDate(r.value) && DateBefore(d, r.value)
    ensures r.None? <==> d == Date(MaxYear, 12, 31)
  {
    if d.day < DaysInMonth(d.year, d.month) then Some(Date(d.year, d.month, d.day + 1))
    else if d.month < 12 then Some(Date(d.year, d.month + 1, 1))
    else if d.year < MaxYear then Some(Date(d.year + 1, 1, 1))
    else None
  }

  /** date - timedelta(days=1); None before 0001-01-01. */
  function PrevDay(d: Date): (r: Option<Date>)
    requires ValidDate(d)
    ensures r.Some? ==> ValidDate(r.value) && DateBefore(r.value, d)
    ensures r.None? <==> d == Date(MinYear, 1, 1)
  {
    if d.day > 1 then Some(Date(d.year, d.month, d.day - 1))
    else if d.month > 1 then Some(Date(d.year, d.month - 1, DaysInMonth(d.year, d.month - 1)))
    else if d.year > MinYear then Some(Date(d.year - 1, 12, 31))
    else None
  }

  /** The day after and the day before are inverse steps. */
  lemma DayRoundTrip(d: Date)
    requires ValidDate(d)
    ensures NextDay(d).Some? ==> PrevDay(NextDay(d).value) == Some(d)
    ensures PrevDay(d).Some? ==> NextDay(PrevDay(d).value) == Some(d)
  {
  }

  /** A naive datetime: a date and the seconds since its midnight. */
  datatype DateTime = DateTime(date: Date, secs: int)

  predicate ValidDateTime(t: DateTime) {
    ValidDate(t.date) && 0 <= t.secs < SecondsPerDay
  }

  /** Chronological order of date-times, as `<` on datetime. */
  predicate Before(a: DateTime, b: DateTime) {
    DateBefore(a.date, b.date) || (a.date == b.date && a.secs < b.secs)
  }

  /**
   * t + timedelta(seconds=delta) for a shift of less than a day; None when the
   * result leaves years 1..9999 (OverflowError).
   */
  function AddSeconds(t: DateTime, delta: int): (r: Option<DateTime>)
    requires ValidDateTime(t) && -SecondsPerDay < delta < SecondsPerDay
    ensures r.Some? ==> ValidDateTime(r.value)
  {
    var s := t.secs + delta;
    if s >= SecondsPerDay then
      match NextDay(t.date)
      case None => None
      case Some(d) => Some(DateTime(d, s - SecondsPerDay))
    else if s < 0 then
      match PrevDay(t.date)
      case None => None
      case Some(d) => Some(DateTime(d, s + SecondsPerDay))
    else Some(DateTime(t.date, s))
  }

  /** t + timedelta(days=1): the same time of day on the next day. */
  function AddDay(t: DateTime): (r: Option<DateTime>)
    requires ValidDateTime(t)
    ensures r.Some? ==> ValidDateTime(r.value) && r.value.secs == t.secs && Before(t, r.value)
  {
    match NextDay(t.date)
    case None => None
    case Some(d) => Some(DateTime(d, t.secs))
  }

  /** Shifting forward and back by the same amount returns to the start. */
  lemma AddSecondsInverse(t: DateTime, delta: int)
    requires ValidDateTime(t) && -SecondsPerDay < delta < SecondsPerDay
    requires AddSeconds(t, delta).Some?
    ensures AddSeconds(AddSeconds(t, delta).value, -delta) == Some(t)
  {
    DayRoundTrip(t.date);
  }

  /** A positive shift moves later, a negative one earlier, and zero not at all. */
  lemma AddSecondsOrder(t: DateTime, delta: int)
    requires ValidDateTime(t) && -SecondsPerDay < delta < SecondsPerDay
    requires AddSeconds(t, delta).Some?
    ensures delta > 0 ==> Before(t, AddSeconds(t, delta).value)
    ensures delta < 0 ==> Before(AddSeconds(t, delta).value, t)
    ensures delta == 0 ==> AddSeconds(t, delta).value == t
  {
  }

  /** strftime("%Y-%m-%d"); the year is written without padding, as glibc does below 1000. */
  function FormatDate(d: Date): string
    requires ValidDate(d)
  {
    NatToString(d.year) + "-" + Pad2(d.month) + "-" + Pad2(d.day)
  }

  /** strftime("%H:%M"): the seconds are dropped. */
  function FormatHM(secs: int): (r: string)
    requires 0 <= secs < SecondsPerDay
    ensures |r| == 5 && r[2] == ':'
  {
    Pad2(secs / 3600) + ":" + Pad2(secs % 3600 / 60)
  }

  /** A numeric strptime field of exactly four digits (%Y) at position i: its value and the next position. */
  function Digits4(s: string, i: nat): (r: Option<(nat, nat)>)
    ensures r.Some? ==> r.value.1 == i + 4 <= |s| && r.value.0 <= 9999
  {
    if i + 4 <= |s| && AllDigits(s[i..i + 4]) then
      DigitsValueBound(s[i..i + 4]);
      assert Pow10(4) == 10000;
      Some((DigitsValue(s[i..i + 4]), i + 4))
    else None
  }

  /**
   * A numeric strptime field of one or two digits (%m, %d, %H, %M, %S) at
   * position i whose value lies in lo..hi. Every field here is followed by a
   * separator or the end of the text, where taking both digits is what
   * strptime's pattern ends up matching.
   */
  function Digits12(s: string, i: nat, lo: nat, hi: nat): (r: Option<(nat, nat)>)
    ensures r.Some? ==> lo <= r.value.0 <= hi && i < r.value.1 <= |s| && r.value.1 <= i + 2
  {
    if i < |s| && IsDigit(s[i]) then
      var w := if i + 1 < |s| && IsDigit(s[i + 1]) then 2 else 1;
      var v := DigitsValue(s[i..i + w]);
      if lo <= v <= hi then Some((v, i + w)) else None
    else None
  }

  /** A literal character of the format at position i. */
  function Literal(s: string, i: nat, c: char): (r: Option<nat>)
    ensures r.Some? ==> r.value == i + 1 <= |s| && s[i] == c
  {
    if i < |s| && s[i] == c then Some(i + 1) else None
  }

  /** A blank in the format, which strptime matches against one or more whitespace characters. */
  function Blanks(s: string, i: nat): (r: Option<nat>)
    ensures r.Some? ==> i < r.value <= |s|
    decreases |s| - i
  {
    if i < |s| && IsSpace(s[i]) then
      if i + 1 < |s| && IsSpace(s[i + 1]) then Blanks(s, i + 1) else Some(i + 1)
    else None
  }

  /** A single blank before a non-blank. */
  lemma OneBlank(s: string, i: nat)
    requires i + 1 < |s| && IsSpace(s[i]) && !IsSpace(s[i + 1])
    ensures Blanks(s, i) == Some(i + 1)
  {
  }

  /** "%Y-%m-%d" at position i: a valid date and the position after it. */
  function ParseDateAt(s: string, i: nat): (r: Option<(Date, nat)>)
    ensures r.Some? ==> ValidDate(r.value.0) && i < r.value.1 <= |s|
  {
    match Digits4(s, i)
    case None => None
    case Some((y, i1)) =>
      match Literal(s, i1, '-')
      case None => None
      case Some(i2) =>
        match Digits12(s, i2, 1, 12)
        case None => None
        case Some((m, i3)) =>
          match Literal(s, i3, '-')
          case None => None
          case Some(i4) =>
            match Digits12(s, i4, 1, 31)
            case None => None
            case Some((d, i5)) =>
              if MinYear <= y && d <= DaysInMonth(y, m) then Some((Date(y, m, d), i5)) else None
  }

  /** "%H:%M" or "%H:%M:%S" at position i: seconds since midnight and the position after it. */
  function ParseClockAt(s: string, i: nat, withSeconds: bool): (r: Option<(int, nat)>)
    ensures r.Some? ==> 0 <= r.value.0 < SecondsPerDay && i < r.value.1 <= |s|
  {
    match Digits12(s, i, 0, 23)
    case None => None
    case Some((h, i1)) =>
      match Literal(s, i1, ':')
      case None => None
      case Some(i2) =>
        match Digits12(s, i2, 0, 59)
        case None => None
        case Some((m, i3)) =>
          if !withSeconds then Some((h * 3600 + m * 60, i3))
          else
            match Literal(s, i3, ':')
            case None => None
            case Some(i4) =>
              match Digits12(s, i4, 0, 59)
              case None => None
              case Some((sec, i5)) => Some((h * 3600 + m * 60 + sec, i5))
  }

  /** datetime.strptime(s, "%H:%M") or "%H:%M:%S", as seconds since midnight; None for a ValueError. */
  function ParseClock(s: string, withSeconds: bool): (r: Option<int>)
    ensures r.Some? ==> 0 <= r.value < SecondsPerDay
  {
    match ParseClockAt(s, 0, withSeconds)
    case Some((t, n)) => if n == |s| then Some(t) else None
    case None => None
  }

  /** datetime.strptime(s, "%Y-%m-%d %H:%M") or "%Y-%m-%d %H:%M:%S"; None for a ValueError. */
  function ParseDateTime(s: string, withSeconds: bool): (r: Option<DateTime>)
    ensures r.Some? ==> ValidDateTime(r.value)
  {
    match ParseDateAt(s, 0)
    case None => None
    case Some((d, i1)) =>
      match Blanks(s, i1)
      case None => None
      case Some(i2) =>
        match ParseClockAt(s, i2, withSeconds)
        case None => None
        case Some((t, i3)) => if i3 == |s| then Some(DateTime(d, t)) else None
  }

  /** datetime.strptime(s, "%Y-%m-%d"). */
  function ParseDate(s: string): (r: Option<Date>)
    ensures r.Some? ==> ValidDate(r.value)
  {
    match ParseDateAt(s, 0)
    case Some((d, n)) => if n == |s| then Some(d) else None
    case None => None
  }

  /** The characters of a two-digit field as Pad2 writes it. */
  lemma Pad2Chars(n: nat)
    requires n < 100
    ensures |Pad2(n)| == 2 && IsDigit(Pad2(n)[0]) && IsDigit(Pad2(n)[1])
    ensures DigitsValue(Pad2(n)[0..2]) == n
  {
    assert Pad2(n)[0..2] == Pad2(n);
  }

  /** Reading a two-digit field back: the field followed by a non-digit or the end. */
  lemma Digits12Pad2(s: string, i: nat, n: nat, lo: nat, hi: nat)
    requires lo <= n <= hi && n < 100
    requires i + 2 <= |s| && s[i..i + 2] == Pad2(n)
    requires i + 2 == |s| || !IsDigit(s[i + 2])
    ensures Digits12(s, i, lo, hi) == Some((n, i + 2))
  {
    Pad2Chars(n);
    assert s[i] == Pad2(n)[0] && s[i + 1] == Pad2(n)[1];
  }

  /** strftime("%Y-%m-%d") is read back by strptime for four-digit years. */
  lemma {:induction false} DateRoundTrip(d: Date)
    requires ValidDate(d) && d.year >= 1000
    ensures ParseDate(FormatDate(d)) == Some(d)
  {
    var y, mo, da := NatToString(d.year), Pad2(d.month), Pad2(d.day);
    var s := FormatDate(d);
    assert |y| == 4 && |mo| == 2 && |da| == 2;
    assert s == y + "-" + mo + "-" + da;
    DateFields(s, y, mo, da);
    assert ParseDateAt(s, 0) == Some((d, 10)) by {
      assert Digits4(s, 0) == Some((d.year, 4));
      Pad2Chars(d.day);
      Digits12Pad2(s, 5, d.month, 1, 12);
      Digits12Pad2(s, 8, d.day, 1, 31);
    }
  }

  /** A ten-character string is a year, a month and a day joined by dashes exactly when its slices say so. */
  lemma DateFields(date: string, y: string, mo: string, da: string)
    requires |y| == 4 && |mo| == 2 && |da| == 2
    ensures (|date| == 10 && date[0..4] == y && date[4] == '-' && date[5..7] == mo && date[7] == '-' && date[8..10] == da)
      <==> date == y + "-" + mo + "-" + da
  {
    var f := y + "-" + mo + "-" + da;
    assert |f| == 10 && f[0..4] == y && f[4] == '-' && f[5..7] == mo && f[7] == '-' && f[8..10] == da;
    if |date| == 10 && date[0..4] == y && date[4] == '-' && date[5..7] == mo && date[7] == '-' && date[8..10] == da {
      assert date == date[0..4] + [date[4]] + date[5..7] + [date[7]] + date[8..10];
    }
  }

  /** strftime("%H:%M") is read back by strptime("%H:%M") up to the dropped seconds. */
  lemma {:induction false} ClockRoundTrip(secs: int)
    requires 0 <= secs < SecondsPerDay
    ensures ParseClock(FormatHM(secs), false) == Some(secs - secs % 60)
  {
    var h, m := secs / 3600, secs % 3600 / 60;
    assert h < 24 && m < 60 && h * 3600 + m * 60 == secs - secs % 60;
    assert FormatHM(secs) == Pad2(h) + ":" + Pad2(m);
    ClockRead(h, m);
  }

  /** strptime("%H:%M") reads back an hour and a minute written with two digits each. */
  lemma ClockRead(h: nat, m: nat)
    requires h < 24 && m < 60
    ensures ParseClock(Pad2(h) + ":" + Pad2(m), false) == Some(h * 3600 + m * 60)
  {
    var s := Pad2(h) + ":" + Pad2(m);
    ClockSlices(s, Pad2(h), Pad2(m));
    Pad2Chars(m);
    Digits12Pad2(s, 0, h, 0, 23);
    Digits12Pad2(s, 3, m, 0, 59);
  }

  /** Where the hour and the minute lie in "HH:MM". */
  lemma ClockSlices(s: string, hh: string, mm: string)
    requires |hh| == 2 && |mm| == 2 && s == hh + ":" + mm
    ensures |s| == 5 && s[0..2] == hh && s[2] == ':' && s[3..5] == mm
  {
  }
}
