/** Calendar dates as `datetime.date` holds them, and their `%Y-%m-%d` rendering. */
module Dates {
  import opened Wrappers
  import opened Text

  datatype Date = Date(year: int, month: int, day: int)

  predicate IsLeapYear(y: int) {
    y % 4 == 0 && (y % 100 != 0 || y % 400 == 0)
  }

  function DaysInMonth(y: int, m: int): int
    requires 1 <= m <= 12
  {
    if m == 2 then (if IsLeapYear(y) then 29 else 28)
    else if m == 4 || m == 6 || m == 9 || m == 11 then 30
    else 31
  }

  /** The dates `datetime.date` can represent (`MINYEAR` 1 to `MAXYEAR` 9999). */
  predicate ValidDate(d: Date) {
    1 <= d.year <= 9999 && 1 <= d.month <= 12 && 1 <= d.day <= DaysInMonth(d.year, d.month)
  }

  type CalendarDate = d: Date | ValidDate(d) witness Date(1, 1, 1)

  /** One zero-padded numeric field of `width` characters, as `%Y`, `%m` and `%d` print it. */
  function Field(n: nat, width: nat): string {
    ZeroPad(NatToDigits(n), width)
  }

  lemma FieldRoundTrip(n: nat, width: nat)
    requires width == 2 || width == 4
    requires n < if width == 2 then 100 else 10000
    ensures |Field(n, width)| == width && AllDigits(Field(n, width))
    ensures DigitsToNat(Field(n, width)) == n
  {
    assert Pow10(2) == 100;
    assert Pow10(4) == 10000 by { assert Pow10(4) == 100 * Pow10(2); }
    ZeroPadRoundTrip(n, width);
  }

  /** `date.strftime("%Y-%m-%d")`: four-digit year, two-digit month and day, zero padded. */
  function FormatDate(d: CalendarDate): (s: string)
    ensures |s| == 10 && s[4] == '-' && s[7] == '-'
  {
    DayFits(d);
    FieldRoundTrip(d.year, 4);
    FieldRoundTrip(d.month, 2);
    FieldRoundTrip(d.day, 2);
    var s := Field(d.year, 4) + "-" + Field(d.month, 2) + "-" + Field(d.day, 2);
    DashesAt(Field(d.year, 4), Field(d.month, 2), Field(d.day, 2));
    s
  }

  lemma DayFits(d: CalendarDate)
    ensures d.day < 100
  {
  }

  lemma DashesAt(y: string, m: string, dd: string)
    requires |y| == 4 && |m| == 2 && |dd| == 2
    ensures var s := y + "-" + m + "-" + dd; |s| == 10 && s[4] == '-' && s[7] == '-'
  {
  }

  /** Reads a `YYYY-MM-DD` string back into a date; `None` unless it names a real day. */
  function ParseDate(s: string): Option<CalendarDate> {
    if |s| == 10 && s[4] == '-' && s[7] == '-'
       && AllDigits(s[..4]) && AllDigits(s[5..7]) && AllDigits(s[8..])
    then
      MakeDate(DigitsToNat(s[..4]), DigitsToNat(s[5..7]), DigitsToNat(s[8..]))
    else
      None
  }

  function MakeDate(year: int, month: int, day: int): Option<CalendarDate> {
    if ValidDate(Date(year, month, day)) then Some(Date(year, month, day)) else None
  }

  lemma Pieces(y: string, m: string, dd: string)
    requires |y| == 4 && |m| == 2 && |dd| == 2
    ensures var s := y + "-" + m + "-" + dd; s[..4] == y && s[5..7] == m && s[8..] == dd
  {
  }

  /** The rendered date names exactly the date it came from. */
  lemma FormatRoundTrip(d: CalendarDate)
    ensures ParseDate(FormatDate(d)) == Some(d)
  {
    DayFits(d);
    FieldRoundTrip(d.year, 4);
    FieldRoundTrip(d.month, 2);
    FieldRoundTrip(d.day, 2);
    var y, m, dd := Field(d.year, 4), Field(d.month, 2), Field(d.day, 2);
    Pieces(y, m, dd);
    DashesAt(y, m, dd);
    var s := FormatDate(d);
    assert s == y + "-" + m + "-" + dd;
    assert MakeDate(d.year, d.month, d.day) == Some(d);
  }

  /** Different dates give different endpoints. */
  lemma FormatInjective(d1: CalendarDate, d2: CalendarDate)
    requires FormatDate(d1) == FormatDate(d2)
    ensures d1 == d2
  {
    FormatRoundTrip(d1);
    FormatRoundTrip(d2);
  }
}
