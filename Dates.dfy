/** Calendar dates as the price list stores them: the `Y-m-d` value of a
    datetime field, written from a date-time and read back as that day's
    midnight. */
module Dates {
  import opened Common
  import opened Decimal

  datatype DateTime = DateTime(year: nat, month: nat, day: nat, hour: nat, minute: nat, second: nat)

  predicate IsLeapYear(y: nat) {
    y % 4 == 0 && (y % 100 != 0 || y % 400 == 0)
  }

  function DaysInMonth(y: nat, m: nat): nat
    requires 1 <= m <= 12
  {
    if m == 2 then (if IsLeapYear(y) then 29 else 28)
    else if m == 4 || m == 6 || m == 9 || m == 11 then 30
    else 31
  }

  /** The year, month and day name a day of the Gregorian calendar. */
  predicate IsCalendarDay(y: nat, m: nat, d: nat) {
    1 <= m <= 12 && 1 <= d <= DaysInMonth(y, m)
  }

  predicate IsValid(t: DateTime) {
    IsCalendarDay(t.year, t.month, t.day) && t.hour < 24 && t.minute < 60 && t.second < 60
  }

  /** A date-time value as the date library builds it: always a real instant. */
  type CalendarDateTime = t: DateTime | IsValid(t) witness DateTime(1970, 1, 1, 0, 0, 0)

  function StartOfDay(t: DateTime): DateTime {
    t.(hour := 0, minute := 0, second := 0)
  }

  /** The `Y-m-d` form: year of at least four digits, two-digit month and day. */
  function FormatYmd(t: DateTime): (s: string)
  {
    ZeroPad(NatToString(t.year), 4) + "-" + ZeroPad(NatToString(t.month), 2) + "-" + ZeroPad(NatToString(t.day), 2)
  }

  /** The day named by a year of at least four digits, a two-digit month
      and a two-digit day, when it is a day of the calendar. */
  function DayOf(y: string, m: string, d: string): Option<CalendarDateTime>
  {
    if 4 <= |y| && AllDigits(y) && AllDigits(m) && AllDigits(d)
       && IsCalendarDay(DigitsValue(y), DigitsValue(m), DigitsValue(d))
    then Some(DateTime(DigitsValue(y), DigitsValue(m), DigitsValue(d), 0, 0, 0))
    else None
  }

  /** Reads a stored `Y-m-d` value back as the midnight that starts that day;
      nothing when the text is not such a date. */
  function ParseYmd(s: string): (r: Option<CalendarDateTime>)
    ensures r.Some? ==> r.value == StartOfDay(r.value)
  {
    if |s| < 10 || s[|s| - 3] != '-' || s[|s| - 6] != '-' then None
    else DayOf(s[..|s| - 6], s[|s| - 5..|s| - 3], s[|s| - 2..])
  }

  lemma PaddedNumber(n: nat, width: nat)
    ensures AllDigits(ZeroPad(NatToString(n), width))
    ensures DigitsValue(ZeroPad(NatToString(n), width)) == n
    ensures |ZeroPad(NatToString(n), width)| >= width
    ensures n < 100 && width == 2 ==> |ZeroPad(NatToString(n), width)| == 2
  {
    ZeroPadProperties(NatToString(n), width);
    NatToStringRoundTrip(n);
  }

  /** Where the dashes and the three fields sit in a joined date. */
  lemma JoinedFields(y: string, m: string, d: string)
    requires |m| == 2 && |d| == 2
    ensures var s := y + "-" + m + "-" + d;
      && |s| == |y| + 6 && s[|s| - 3] == '-' && s[|s| - 6] == '-'
      && s[..|s| - 6] == y && s[|s| - 5..|s| - 3] == m && s[|s| - 2..] == d
  {
    var s := y + "-" + m + "-" + d;
    assert s[..|s| - 6] == y;
    assert s[|s| - 5..|s| - 3] == m;
    assert s[|s| - 2..] == d;
  }

  /** A year, month and day joined by dashes read back as that day. */
  lemma ParseJoined(y: string, m: string, d: string)
    requires 4 <= |y| && |m| == 2 && |d| == 2
    requires AllDigits(y) && AllDigits(m) && AllDigits(d)
    requires IsCalendarDay(DigitsValue(y), DigitsValue(m), DigitsValue(d))
    ensures ParseYmd(y + "-" + m + "-" + d) == Some(DateTime(DigitsValue(y), DigitsValue(m), DigitsValue(d), 0, 0, 0))
  {
    JoinedFields(y, m, d);
  }

  /** Writing a date and reading it back gives the same calendar day at
      midnight: the day survives, the time of day is dropped. */
  lemma FormatParseRoundTrip(t: CalendarDateTime)
    ensures ParseYmd(FormatYmd(t)) == Some(StartOfDay(t))
  {
    PaddedNumber(t.year, 4);
    PaddedNumber(t.month, 2);
    PaddedNumber(t.day, 2);
    ParseJoined(ZeroPad(NatToString(t.year), 4), ZeroPad(NatToString(t.month), 2), ZeroPad(NatToString(t.day), 2));
  }

  /** Two date-times on the same day are stored identically. */
  lemma FormatIgnoresTimeOfDay(t: CalendarDateTime, u: CalendarDateTime)
    requires t.year == u.year && t.month == u.month && t.day == u.day
    ensures FormatYmd(t) == FormatYmd(u)
  {
  }

  /** Distinct calendar days are stored differently. */
  lemma {:induction false} FormatDistinguishesDays(t: CalendarDateTime, u: CalendarDateTime)
    requires FormatYmd(t) == FormatYmd(u)
    ensures t.year == u.year && t.month == u.month && t.day == u.day
  {
    FormatParseRoundTrip(t);
    FormatParseRoundTrip(u);
  }
}
