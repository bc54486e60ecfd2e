/**
 * Proleptic Gregorian dates as Python's `datetime` treats them: the range of valid dates,
 * day ordinals (`date.toordinal()`), weekdays (`date.weekday()`, Monday is 0) and the strict
 * `"%Y-%m-%d"` form that `datetime.strptime` parses.
 */
module Calendar {
  import opened Wrappers
  import opened Text

  datatype Date = Date(year: int, month: int, day: int)

  predicate IsLeap(y: int) {
    y % 4 == 0 && (y % 100 != 0 || y % 400 == 0)
  }

  function DaysInMonth(y: int, m: int): int
    requires 1 <= m <= 12
  {
    if m == 2 then (if IsLeap(y) then 29 else 28)
    else if m == 4 || m == 6 || m == 9 || m == 11 then 30
    else 31
  }

  /** The dates `datetime(year, month, day)` accepts without raising `ValueError`. */
  predicate Valid(d: Date) {
    && 1 <= d.year <= 9999
    && 1 <= d.month <= 12
    && 1 <= d.day <= DaysInMonth(d.year, d.month)
  }

  function DaysBeforeYear(y: int): int
    requires y >= 1
  {
    var p := y - 1;
    365 * p + p / 4 - p / 100 + p / 400
  }

  function DaysBeforeMonth(y: int, m: int): int
    requires 1 <= m <= 12
  {
    var before := [0, 31, 59, 90, 120, 151, 181, 212, 243, 273, 304, 334];
    before[m - 1] + (if m > 2 && IsLeap(y) then 1 else 0)
  }

  /** `date.toordinal()`: 1 January of year 1 is day 1. */
  function Ordinal(d: Date): int
    requires Valid(d)
  {
    DaysBeforeYear(d.year) + DaysBeforeMonth(d.year, d.month) + d.day
  }

  /** `date.weekday()`: 0 for Monday up to 6 for Sunday. */
  function Weekday(d: Date): (w: int)
    requires Valid(d)
    ensures 0 <= w < 7
  {
    (Ordinal(d) + 6) % 7
  }

  /** The one-syllable Korean weekday names from Monday to Sunday, as both date displays use them. */
  const KoreanWeekdays: seq<string> := ["월", "화", "수", "목", "금", "토", "일"]

  function KoreanWeekday(d: Date): string
    requires Valid(d)
  {
    KoreanWeekdays[Weekday(d)]
  }

  /**
   * `(now - date).days` where `now` is a moment of the day `today` and `date` is midnight:
   * the time of day is less than one day, so the floor of the difference is the ordinal difference.
   */
  function DaysSince(today: Date, d: Date): int
    requires Valid(today) && Valid(d)
  {
    Ordinal(today) - Ordinal(d)
  }

  /** `datetime.strptime(s, "%Y-%m-%d")`, for the strict form: four, two and two ASCII digits. */
  function ParseYmd(s: string): (r: Option<Date>)
    ensures r.Some? ==> Valid(r.value)
  {
    if |s| == 10 && s[4] == '-' && s[7] == '-' && AllDigits(s[..4]) && AllDigits(s[5..7]) && AllDigits(s[8..]) then
      var d := Date(DigitsValue(s[..4]), DigitsValue(s[5..7]), DigitsValue(s[8..]));
      if Valid(d) then Some(d) else None
    else None
  }

  /** `date.strftime("%Y-%m-%d")`, with the year written as four digits. */
  function FormatYmd(d: Date): string
    requires Valid(d)
  {
    Pad4(d.year) + "-" + Pad2(d.month) + "-" + Pad2(d.day)
  }

  /** Formatting a valid date and parsing it back gives the same date. */
  lemma ParseFormatYmd(d: Date)
    requires Valid(d)
    ensures ParseYmd(FormatYmd(d)) == Some(d)
  {
    var s := FormatYmd(d);
    assert s[..4] == Pad4(d.year);
    assert s[5..7] == Pad2(d.month);
    assert s[8..] == Pad2(d.day);
  }

  /** The formatted date holds no `T`, so it is the whole of `split("T")[0]` of a timestamp. */
  lemma FormatYmdHasNoT(d: Date)
    requires Valid(d)
    ensures 'T' !in FormatYmd(d)
  {
    var s := FormatYmd(d);
    forall i | 0 <= i < |s| ensures s[i] != 'T' {
      if i < 4 {
        assert s[i] == Pad4(d.year)[i];
      } else if 4 < i < 7 {
        assert s[i] == Pad2(d.month)[i - 5];
      } else if i > 7 {
        assert s[i] == Pad2(d.day)[i - 8];
      }
    }
  }

  /** Parsing is injective on what it accepts: the accepted text is the date's own formatting. */
  lemma FormatParseYmd(s: string)
    requires ParseYmd(s).Some?
    ensures FormatYmd(ParseYmd(s).value) == s
  {
    var d := ParseYmd(s).value;
    DigitsValueInjective(Pad4(d.year), s[..4]);
    DigitsValueInjective(Pad2(d.month), s[5..7]);
    DigitsValueInjective(Pad2(d.day), s[8..]);
    assert s == s[..4] + "-" + s[5..7] + "-" + s[8..];
  }

  /** Two digit strings of the same length with the same value are equal. */
  lemma {:induction false} DigitsValueInjective(a: string, b: string)
    requires |a| == |b| && AllDigits(a) && AllDigits(b) && DigitsValue(a) == DigitsValue(b)
    ensures a == b
    decreases |a|
  {
    if a != [] {
      var n := |a| - 1;
      assert DigitsValue(a) == 10 * DigitsValue(a[..n]) + (a[n] as int - '0' as int);
      assert DigitsValue(b) == 10 * DigitsValue(b[..n]) + (b[n] as int - '0' as int);
      assert a[n] == b[n];
      DigitsValueInjective(a[..n], b[..n]);
      assert a == a[..n] + [a[n]] && b == b[..n] + [b[n]];
    }
  }

  /** One fixed point of the calendar: 24 December 2024 was a Tuesday. */
  lemma KnownWeekday()
    ensures Valid(Date(2024, 12, 24)) && Weekday(Date(2024, 12, 24)) == 1
  {
  }
}
