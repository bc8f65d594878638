/**
 * The part of Go's `time` package the quote wall relies on, in UTC:
 * civil dates, instants as a date plus nanoseconds into that day,
 * `Add`, `AddDate(0, 0, k)`, `YearDay`, `Before`, and the layouts
 * "1/2/2006" (parse and format) and "Jan 2, 2006" (format).
 */
module Calendar {
  import opened Common
  import opened Numbers
  import Text

  datatype Date = Date(year: int, month: int, day: int)

  predicate IsLeap(y: int) {
    y % 4 == 0 && (y % 100 != 0 || y % 400 == 0)
  }

  function DaysIn(y: int, m: int): (n: int)
    requires 1 <= m <= 12
    ensures 28 <= n <= 31
  {
    if m == 2 then (if IsLeap(y) then 29 else 28)
    else if m == 4 || m == 6 || m == 9 || m == 11 then 30
    else 31
  }

  predicate ValidDate(d: Date) {
    1 <= d.month <= 12 && 1 <= d.day <= DaysIn(d.year, d.month)
  }

  /** Days in the months of year `y` that come before month `m`. */
  function DaysBeforeMonth(y: int, m: int): nat
    requires 1 <= m <= 12
  {
    [0, 31, 59, 90, 120, 151, 181, 212, 243, 273, 304, 334][m - 1]
    + (if m > 2 && IsLeap(y) then 1 else 0)
  }

  /** `Time.YearDay`: 1 on January 1st, 365 or 366 on December 31st. */
  function YearDay(d: Date): (n: int)
    requires ValidDate(d)
    ensures 1 <= n <= (if IsLeap(d.year) then 366 else 365)
  {
    YearEnd(d.year, d.month);
    DaysBeforeMonth(d.year, d.month) + d.day
  }

  /** Month `m` ends where month `m + 1` begins; December ends the year. */
  lemma YearEnd(y: int, m: int)
    requires 1 <= m <= 12
    ensures m < 12 ==> DaysBeforeMonth(y, m) + DaysIn(y, m) == DaysBeforeMonth(y, m + 1)
    ensures m == 12 ==> DaysBeforeMonth(y, m) + DaysIn(y, m) == (if IsLeap(y) then 366 else 365)
  {
  }

  function NextDay(d: Date): (n: Date)
    requires ValidDate(d)
    ensures ValidDate(n)
  {
    if d.day < DaysIn(d.year, d.month) then Date(d.year, d.month, d.day + 1)
    else if d.month < 12 then Date(d.year, d.month + 1, 1)
    else Date(d.year + 1, 1, 1)
  }

  function PrevDay(d: Date): (p: Date)
    requires ValidDate(d)
    ensures ValidDate(p)
  {
    if d.day > 1 then Date(d.year, d.month, d.day - 1)
    else if d.month > 1 then Date(d.year, d.month - 1, DaysIn(d.year, d.month - 1))
    else Date(d.year - 1, 12, 31)
  }

  lemma NextPrev(d: Date)
    requires ValidDate(d)
    ensures PrevDay(NextDay(d)) == d && NextDay(PrevDay(d)) == d
  {
  }

  /** `AddDate(0, 0, k)` on the calendar date: `k` days later (earlier when negative). */
  function AddDays(d: Date, k: int): (r: Date)
    requires ValidDate(d)
    ensures ValidDate(r)
    decreases if k < 0 then -k else k
  {
    if k == 0 then d
    else if k > 0 then AddDays(NextDay(d), k - 1)
    else AddDays(PrevDay(d), k + 1)
  }

  /** Consecutive days never share a day-of-year number. */
  lemma YearDayOfNextDay(d: Date)
    requires ValidDate(d)
    ensures YearDay(NextDay(d)) != YearDay(d)
    ensures d.month < 12 || d.day < 31 ==> YearDay(NextDay(d)) == YearDay(d) + 1
  {
    YearEnd(d.year, d.month);
  }

  const NanosPerSecond: int := 1_000_000_000
  const NanosPerDay: int := 86_400 * NanosPerSecond
  const FiveMinutes: int := 300 * NanosPerSecond

  /** A `time.Time` in UTC: a calendar date and the nanoseconds elapsed since its midnight. */
  datatype Time = Time(date: Date, nanos: int)

  predicate ValidTime(t: Time) {
    ValidDate(t.date) && 0 <= t.nanos < NanosPerDay
  }

  /** `time.Time{}`: January 1 of year 1, midnight. */
  const ZeroTime: Time := Time(Date(1, 1, 1), 0)

  /** `t.Before(u)`. */
  predicate Before(t: Time, u: Time) {
    t.date.year < u.date.year
    || (t.date.year == u.date.year && t.date.month < u.date.month)
    || (t.date.year == u.date.year && t.date.month == u.date.month && t.date.day < u.date.day)
    || (t.date == u.date && t.nanos < u.nanos)
  }

  lemma BeforeIrreflexive(t: Time)
    ensures !Before(t, t)
  {
  }

  lemma BeforeTransitive(a: Time, b: Time, c: Time)
    requires Before(a, b) && Before(b, c)
    ensures Before(a, c)
  {
  }

  /** `t.Add(ns)`: an instant `ns` nanoseconds later (earlier when negative). */
  function AddDuration(t: Time, ns: int): (r: Time)
    requires ValidTime(t)
    ensures ValidTime(r)
  {
    var total := t.nanos + ns;
    Time(AddDays(t.date, total / NanosPerDay), total % NanosPerDay)
  }

  /** `t.AddDate(0, 0, k)`: the same clock time `k` days away. */
  function AddCalendarDays(t: Time, k: int): (r: Time)
    requires ValidTime(t)
    ensures ValidTime(r) && r.nanos == t.nanos
  {
    Time(AddDays(t.date, k), t.nanos)
  }

  /** Going back five minutes stays on the same day once five minutes of it have passed... */
  lemma FiveMinutesBackSameDay(t: Time)
    requires ValidTime(t) && t.nanos >= FiveMinutes
    ensures AddDuration(t, -FiveMinutes) == Time(t.date, t.nanos - FiveMinutes)
  {
    var total := t.nanos - FiveMinutes;
    assert 0 <= total < NanosPerDay;
    assert total / NanosPerDay == 0;
  }

  /** ... and lands on the previous day during the first five minutes. */
  lemma FiveMinutesBackPrevDay(t: Time)
    requires ValidTime(t) && t.nanos < FiveMinutes
    ensures AddDuration(t, -FiveMinutes) == Time(PrevDay(t.date), t.nanos - FiveMinutes + NanosPerDay)
  {
    var total := t.nanos - FiveMinutes;
    assert -NanosPerDay <= total < 0;
    assert total / NanosPerDay == -1;
    assert total % NanosPerDay == total + NanosPerDay;
  }

  // ---------------------------------------------------------------
  // The layout "1/2/2006"
  // ---------------------------------------------------------------

  /**
   * The `getnum(s, false)` step of `time.Parse`: one digit, or two when the
   * second character is also a digit; the value and what follows it.
   */
  function GetNum(s: string): (r: Option<(nat, string)>)
    ensures r.Some? ==> r.value.0 < 100 && |r.value.1| < |s| && |s| - |r.value.1| <= 2
    ensures r.Some? ==> r.value.1 == s[|s| - |r.value.1|..] && AllDigits(s[..|s| - |r.value.1|])
  {
    if |s| == 0 || !IsDigit(s[0]) then None
    else if |s| == 1 || !IsDigit(s[1]) then Some((s[0] as int - '0' as int, s[1..]))
    else Some(((s[0] as int - '0' as int) * 10 + (s[1] as int - '0' as int), s[2..]))
  }

  /**
   * `time.Parse("1/2/2006", s)`: a one- or two-digit month in 1..12, '/',
   * a one- or two-digit day, '/', exactly four year digits and nothing
   * after them; the day must exist in that month of that year.
   */
  function ParseMonthDayYear(s: string): (r: Option<Date>)
    ensures r.Some? ==> ValidDate(r.value) && 0 <= r.value.year <= 9999
  {
    match GetNum(s)
    case None => None
    case Some((month, rest)) =>
      if !(1 <= month <= 12) || |rest| == 0 || rest[0] != '/' then None
      else ParseDayYear(month, rest[1..])
  }

  /** The rest of `ParseMonthDayYear` once the month and its '/' are read. */
  function ParseDayYear(month: int, s: string): (r: Option<Date>)
    requires 1 <= month <= 12
    ensures r.Some? ==> ValidDate(r.value) && 0 <= r.value.year <= 9999
  {
    match GetNum(s)
    case None => None
    case Some((day, rest)) =>
      if |rest| == 0 || rest[0] != '/' then None
      else ParseYear(month, day, rest[1..])
  }

  /** The year field: exactly four digits, and the day must exist in that month. */
  function ParseYear(month: int, day: int, y: string): (r: Option<Date>)
    requires 1 <= month <= 12
    ensures r.Some? ==> ValidDate(r.value) && 0 <= r.value.year <= 9999
  {
    if |y| != 4 || !AllDigits(y) then None
    else
      assert DigitsValue(y) <= 9999 by { FourDigitsBound(y); }
      if 1 <= day <= DaysIn(DigitsValue(y), month) then Some(Date(DigitsValue(y), month, day))
      else None
  }

  lemma FourDigitsBound(y: string)
    requires |y| == 4 && AllDigits(y)
    ensures DigitsValue(y) <= 9999
  {
    DigitsValueBound(y);
  }

  /**
   * `t.Format("1/2/2006")`: month and day without padding, the year with
   * at least four digits (a sign first when negative).
   */
  function FormatMonthDayYear(d: Date): (s: string)
    requires ValidDate(d)
  {
    NatToString(d.month) + "/" + NatToString(d.day) + "/" + YearField(d.year)
  }

  lemma {:induction false} GetNumOfSmall(n: nat, rest: string)
    requires n < 100 && |rest| > 0 && !IsDigit(rest[0])
    ensures GetNum(NatToString(n) + rest) == Some((n, rest))
  {
    var s := NatToString(n) + rest;
    if n >= 10 {
      assert NatToString(n) == NatToString(n / 10) + [DigitChar(n % 10)];
      assert NatToString(n / 10) == [DigitChar(n / 10)];
      assert s[2..] == rest;
    } else {
      assert s[1..] == rest;
    }
  }

  /** Parsing month digits, '/', day digits, '/' and four year digits. */
  lemma ParseFields(m: nat, dd: nat, y: string)
    requires 1 <= m <= 12 && dd < 100 && |y| == 4 && AllDigits(y)
    ensures ParseMonthDayYear(NatToString(m) + ("/" + NatToString(dd) + "/" + y)) ==
      if 1 <= dd <= DaysIn(DigitsValue(y), m) then Some(Date(DigitsValue(y), m, dd)) else None
  {
    var rest := "/" + y;
    var mid := NatToString(dd) + rest;
    var tail := "/" + mid;
    assert tail == "/" + NatToString(dd) + "/" + y;
    assert tail[1..] == mid && rest[1..] == y;
    GetNumOfSmall(m, tail);
    GetNumOfSmall(dd, rest);
    assert ParseMonthDayYear(NatToString(m) + tail) == ParseDayYear(m, mid);
    assert ParseDayYear(m, mid) == ParseYear(m, dd, y);
  }

  /** Parsing a formatted date gives it back, for every year of four digits. */
  lemma ParseFormatMonthDayYear(d: Date)
    requires ValidDate(d) && 0 <= d.year <= 9999
    ensures ParseMonthDayYear(FormatMonthDayYear(d)) == Some(d)
  {
    var y := YearField(d.year);
    assert |NatToString(d.year)| <= 4 by { SmallHasFewDigits(d.year); }
    assert y == ZeroPad(d.year, 4) && |y| == 4;
    ZeroPadValue(d.year, 4);
    assert FormatMonthDayYear(d) == NatToString(d.month) + ("/" + NatToString(d.day) + "/" + y);
    ParseFields(d.month, d.day, y);
  }

  /** A text `time.Parse` accepts in this layout has exactly two '/' separators. */
  lemma ParsedHasThreeParts(s: string)
    requires ParseMonthDayYear(s).Some?
    ensures |Text.Split(s, '/')| == 3
  {
    var rest := GetNum(s).value.1;
    var a := s[..|s| - |rest|];
    assert s == a + ['/'] + rest[1..];
    NoSlashInDigits(a);
    var s2 := rest[1..];
    assert ParseDayYear(GetNum(s).value.0, s2).Some?;
    var rest2 := GetNum(s2).value.1;
    var b := s2[..|s2| - |rest2|];
    assert s2 == b + ['/'] + rest2[1..];
    NoSlashInDigits(b);
    var y := rest2[1..];
    assert ParseYear(GetNum(s).value.0, GetNum(s2).value.0, y).Some?;
    NoSlashInDigits(y);
    Text.SplitAfterPiece(a, s2, '/');
    Text.SplitAfterPiece(b, y, '/');
    Text.SplitNoSeparator(y, '/');
  }

  lemma SmallHasFewDigits(n: nat)
    requires n <= 9999
    ensures |NatToString(n)| <= 4
  {
    FewDigits(n, 4);
  }

  lemma NoSlashInDigits(s: string)
    requires AllDigits(s)
    ensures '/' !in s
  {
    assert forall i :: 0 <= i < |s| ==> s[i] != '/';
  }

  /** The year field of the layouts: at least four digits, a sign first when negative. */
  function YearField(y: int): (s: string)
    ensures '/' !in s
  {
    if y < 0 then
      NoSlashInDigits(ZeroPad(-y, 4));
      "-" + ZeroPad(-y, 4)
    else
      NoSlashInDigits(ZeroPad(y, 4));
      ZeroPad(y, 4)
  }

  /** A formatted date splits on '/' into exactly month, day and year. */
  lemma SplitFormatted(d: Date)
    requires ValidDate(d)
    ensures Text.Split(FormatMonthDayYear(d), '/') ==
      [NatToString(d.month), NatToString(d.day), YearField(d.year)]
  {
    var m := NatToString(d.month);
    var dd := NatToString(d.day);
    var y := YearField(d.year);
    NoSlashInDigits(m);
    NoSlashInDigits(dd);
    assert FormatMonthDayYear(d) == m + ['/'] + (dd + ['/'] + y);
    Text.SplitAfterPiece(m, dd + ['/'] + y, '/');
    Text.SplitAfterPiece(dd, y, '/');
    Text.SplitNoSeparator(y, '/');
  }

  // ---------------------------------------------------------------
  // The layout "Jan 2, 2006"
  // ---------------------------------------------------------------

  function MonthAbbrev(m: int): (s: string)
    requires 1 <= m <= 12
    ensures |s| == 3
  {
    ["Jan", "Feb", "Mar", "Apr", "May", "Jun", "Jul", "Aug", "Sep", "Oct", "Nov", "Dec"][m - 1]
  }

  /** `t.Format("Jan 2, 2006")`. */
  function FormatDisplay(d: Date): (s: string)
    requires ValidDate(d)
  {
    MonthAbbrev(d.month) + " " + NatToString(d.day) + ", " + YearField(d.year)
  }
}
