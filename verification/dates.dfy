/**
 * internal/controller/common.go: parsing a start and an end month in the
 * layout "01-2006" (two-digit month, dash, four-digit year) and checking
 * that the range is not inverted.
 */
module Dates {
  import opened Wrappers
  import opened Entity
  import opened GoErrors
  import opened Text

  const TimeFormat: string := "01-2006"

  /**
   * time.Parse("01-2006", s): exactly two digits forming a month 01..12, a
   * dash, exactly four digits of year, and nothing after them.
   */
  function ParseMonthYear(s: string): (r: Option<Time>)
    ensures r.Some? ==> |s| == 7 && 0 <= r.value.year <= 9999
  {
    if |s| < 2 || !IsDigit(s[0]) || !IsDigit(s[1]) then None
    else
      var month := DigitValue(s[0]) * 10 + DigitValue(s[1]);
      if month < 1 || month > 12 then None
      else if |s| < 3 || s[2] != '-' then None
      else if |s| < 7 || !AllDigits(s[3..7]) then None
      else if |s| > 7 then None
      else
        assert IsDigit(s[3..7][0]) && IsDigit(s[3..7][1]) && IsDigit(s[3..7][2]) && IsDigit(s[3..7][3]);
        var year := DigitValue(s[3]) * 1000 + DigitValue(s[4]) * 100 + DigitValue(s[5]) * 10 + DigitValue(s[6]);
        Some(Time(year, month))
  }

  /** Time.Format("01-2006") for a year of at most four digits. */
  function FormatMonthYear(t: Time): (s: string)
    requires 0 <= t.year <= 9999
    ensures |s| == 7
  {
    var y := t.year;
    [DigitChar(t.month / 10), DigitChar(t.month % 10), '-',
     DigitChar(y / 1000), DigitChar(y % 1000 / 100), DigitChar(y % 100 / 10), DigitChar(y % 10)]
  }

  lemma YearDigits(y: int)
    requires 0 <= y <= 9999
    ensures (y / 1000) * 1000 + (y % 1000 / 100) * 100 + (y % 100 / 10) * 10 + y % 10 == y
  {
    assert y % 1000 == (y % 1000 / 100) * 100 + y % 100;
    assert y % 100 == (y % 100 / 10) * 10 + y % 10;
  }

  /** Formatting a month then parsing it gives the month back. */
  lemma ParseFormat(t: Time)
    requires 0 <= t.year <= 9999
    ensures ParseMonthYear(FormatMonthYear(t)) == Some(t)
  {
    var s := FormatMonthYear(t);
    assert AllDigits(s[3..7]);
    YearDigits(t.year);
  }

  lemma DigitsOfYear(d0: int, d1: int, d2: int, d3: int)
    requires 0 <= d0 < 10 && 0 <= d1 < 10 && 0 <= d2 < 10 && 0 <= d3 < 10
    ensures var y := d0 * 1000 + d1 * 100 + d2 * 10 + d3;
      y / 1000 == d0 && y % 1000 / 100 == d1 && y % 100 / 10 == d2 && y % 10 == d3
  {
    var y := d0 * 1000 + d1 * 100 + d2 * 10 + d3;
    var r2 := d2 * 10 + d3;
    var r1 := d1 * 100 + r2;
    assert 0 <= r2 < 100 && 0 <= r1 < 1000;
    assert y / 1000 == d0 && y % 1000 == r1;
    assert r1 / 100 == d1;
    assert y == (d0 * 10 + d1) * 100 + r2;
    assert y % 100 == r2;
    assert r2 / 10 == d2;
    assert y == (d0 * 100 + d1 * 10 + d2) * 10 + d3;
  }

  /** Only the canonical spelling parses: a parsed string is exactly the formatted month. */
  lemma FormatParse(s: string)
    requires ParseMonthYear(s).Some?
    ensures FormatMonthYear(ParseMonthYear(s).value) == s
  {
    assert IsDigit(s[3..7][0]) && IsDigit(s[3..7][1]) && IsDigit(s[3..7][2]) && IsDigit(s[3..7][3]);
    DigitsOfYear(DigitValue(s[3]), DigitValue(s[4]), DigitValue(s[5]), DigitValue(s[6]));
    var f := FormatMonthYear(ParseMonthYear(s).value);
    assert f[0] == s[0] && f[1] == s[1] && f[2] == s[2];
    assert f[3] == s[3] && f[4] == s[4] && f[5] == s[5] && f[6] == s[6];
  }

  /** The result of parseStartAndEndDate: Go's (start, end, err) triple. */
  datatype DateRange = DateRange(start: Time, end: Time, err: Option<Error>)

  /**
   * parseStartAndEndDate: both months parsed, start first, and start not
   * after end; on every failure both times are zero. A malformed start is
   * reported as such whatever the end string is.
   */
  function ParseStartAndEndDate(startStr: string, endStr: string): (r: DateRange)
    ensures r.err.None? <==>
      && ParseMonthYear(startStr).Some? && ParseMonthYear(endStr).Some?
      && !After(ParseMonthYear(startStr).value, ParseMonthYear(endStr).value)
    ensures r.err.None? ==>
      && r.start == ParseMonthYear(startStr).value
      && r.end == ParseMonthYear(endStr).value
      && !After(r.start, r.end)
    ensures r.err.Some? ==> IsZero(r.start) && IsZero(r.end)
    ensures ParseMonthYear(startStr).None? ==>
      r.err == Some(Wrapped("start date parse failed", TimeParseError(TimeFormat, startStr)))
  {
    var startDate := ParseMonthYear(startStr);
    if startDate.None? then
      DateRange(ZeroTime, ZeroTime, Some(Wrapped("start date parse failed", TimeParseError(TimeFormat, startStr))))
    else
      var endDate := ParseMonthYear(endStr);
      if endDate.None? then
        DateRange(ZeroTime, ZeroTime, Some(Wrapped("end date parse failed", TimeParseError(TimeFormat, endStr))))
      else if After(startDate.value, endDate.value) then
        DateRange(ZeroTime, ZeroTime, Some(Failure("start date is after end date")))
      else if Before(endDate.value, startDate.value) then
        DateRange(ZeroTime, ZeroTime, Some(Failure("end date is before start date")))
      else
        DateRange(startDate.value, endDate.value, None)
  }

  /**
   * The second range check can never fire: end before start is the same
   * as start after end, which was already rejected.
   */
  lemma BeforeIsConverseOfAfter(t: Time, u: Time)
    ensures Before(u, t) <==> After(t, u)
  {
  }

  /** Equal months form an accepted range. */
  lemma EqualDatesAccepted(s: string)
    requires ParseMonthYear(s).Some?
    ensures ParseStartAndEndDate(s, s) == DateRange(ParseMonthYear(s).value, ParseMonthYear(s).value, None)
  {
  }

  /** September to August 2025 is rejected; August to September 2025 is accepted. */
  lemma ExampleRanges()
    ensures ParseStartAndEndDate("09-2025", "08-2025").err.Some?
    ensures ParseStartAndEndDate("08-2025", "09-2025") == DateRange(Time(2025, 8), Time(2025, 9), None)
  {
    ParseFormat(Time(2025, 8));
    ParseFormat(Time(2025, 9));
    assert FormatMonthYear(Time(2025, 8)) == "08-2025";
    assert FormatMonthYear(Time(2025, 9)) == "09-2025";
  }
}
