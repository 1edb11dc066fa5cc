/**
 * `datetime.strptime(s, "%Y-%m-%d")`, reduced to the part the spider uses:
 * whether the string parses, and the calendar date it denotes.
 *
 * CPython's `_strptime` turns the format into a regular expression in which
 * `%Y` is exactly four digits, `%m` is `1[0-2]|0[1-9]|[1-9]` and `%d` is
 * `3[01]|[12]\d|0[1-9]|[1-9]| [1-9]`; the whole string must be consumed.
 * The fields are then checked against the proleptic Gregorian calendar
 * (years 1 to 9999, days that exist in the month).
 */
module PyDate {
  import opened Wrappers
  import opened PyText

  datatype Date = Date(year: int, month: int, day: int)

  /** Why `strptime` raised `ValueError`. */
  datatype DateError =
    | FormatMismatch  // the text does not match the format, or data remains
    | OutOfRange      // the fields match but name no existing date

  predicate IsLeapYear(y: int) {
    y % 4 == 0 && (y % 100 != 0 || y % 400 == 0)
  }

  function DaysInMonth(y: int, m: int): (n: int)
    requires 1 <= m <= 12
    ensures 28 <= n <= 31
  {
    if m == 2 then (if IsLeapYear(y) then 29 else 28)
    else if m == 4 || m == 6 || m == 9 || m == 11 then 30
    else 31
  }

  predicate ValidDate(d: Date) {
    1 <= d.year <= 9999 && 1 <= d.month <= 12 && 1 <= d.day <= DaysInMonth(d.year, d.month)
  }

  /** The month a whole token matches under `%m`, if any. */
  function MonthToken(t: string): (r: Option<int>)
    ensures r.Some? ==> 1 <= r.value <= 12
  {
    if |t| == 2 && t[0] == '1' && '0' <= t[1] <= '2' then Some(10 + DigitOf(t[1]))
    else if |t| == 2 && t[0] == '0' && '1' <= t[1] <= '9' then Some(DigitOf(t[1]))
    else if |t| == 1 && '1' <= t[0] <= '9' then Some(DigitOf(t[0]))
    else None
  }

  /** The day a whole token matches under `%d`, if any. */
  function DayToken(t: string): (r: Option<int>)
    ensures r.Some? ==> 1 <= r.value <= 31
  {
    if |t| == 2 && t[0] == '3' && '0' <= t[1] <= '1' then Some(30 + DigitOf(t[1]))
    else if |t| == 2 && '1' <= t[0] <= '2' && IsDigit(t[1]) then Some(10 * DigitOf(t[0]) + DigitOf(t[1]))
    else if |t| == 2 && (t[0] == '0' || t[0] == ' ') && '1' <= t[1] <= '9' then Some(DigitOf(t[1]))
    else if |t| == 1 && '1' <= t[0] <= '9' then Some(DigitOf(t[0]))
    else None
  }

  /**
   * `s` is `YYYY-` followed by a month token of `width` characters, a dash and
   * a day token, and these denote the fields of `d`.
   */
  predicate ShapedAs(s: string, width: nat, d: Date) {
    && |s| > 6 + width
    && AllDigits(s[..4]) && s[4] == '-' && s[5 + width] == '-'
    && DigitsValue(s[..4]) == d.year
    && MonthToken(s[5..5 + width]) == Some(d.month)
    && DayToken(s[6 + width..]) == Some(d.day)
  }

  /** `datetime.strptime(s, "%Y-%m-%d")`, keeping only the date it names. */
  function ParseDate(s: string): (r: Result<Date, DateError>)
    ensures r.Success? ==> ValidDate(r.value)
    ensures r.Success? ==> ShapedAs(s, 1, r.value) || ShapedAs(s, 2, r.value)
  {
    if |s| < 5 || !AllDigits(s[..4]) || s[4] != '-' then Failure(FormatMismatch)
    else
      // the month token ends at the next dash: a month token holds no dash
      var width := if |s| >= 7 && s[6] == '-' then 1 else 2;
      if |s| < 6 + width || s[5 + width] != '-' then Failure(FormatMismatch)
      else
        match (MonthToken(s[5..5 + width]), DayToken(s[6 + width..]))
        case (Some(m), Some(dd)) =>
          var d := Date(DigitsValue(s[..4]), m, dd);
          if ValidDate(d) then Success(d) else Failure(OutOfRange)
        case _ => Failure(FormatMismatch)
  }

  /**
   * Every string of the format's shape parses: to its date when that date
   * exists, to an out-of-range error otherwise.
   */
  lemma ParseDateOfParts(ys: string, mt: string, dt: string)
    requires |ys| == 4 && AllDigits(ys)
    requires MonthToken(mt).Some? && DayToken(dt).Some?
    ensures var d := Date(DigitsValue(ys), MonthToken(mt).value, DayToken(dt).value);
            ParseDate(ys + "-" + mt + "-" + dt) == if ValidDate(d) then Success(d) else Failure(OutOfRange)
  {
    var s := ys + "-" + mt + "-" + dt;
    assert s[..4] == ys;
    assert s[5..5 + |mt|] == mt;
    assert s[6 + |mt|..] == dt;
    assert |dt| >= 1;
    if |mt| == 1 {
      assert s[6] == '-';
    } else {
      assert s[6] == mt[1] && s[6] != '-';
    }
  }

  // ---------------------------------------------------------------------------
  // The canonical form YYYY-MM-DD
  // ---------------------------------------------------------------------------

  function TwoDigits(n: nat): (r: string)
    requires n < 100
  {
    [DigitChar(n / 10), DigitChar(n % 10)]
  }

  function FourDigits(n: nat): (r: string)
    requires n < 10000
  {
    TwoDigits(n / 100) + TwoDigits(n % 100)
  }

  /** `date.isoformat()`: zero-padded year, month and day. */
  function FormatDate(d: Date): string
    requires ValidDate(d)
  {
    FourDigits(d.year) + "-" + TwoDigits(d.month) + "-" + TwoDigits(d.day)
  }

  lemma FourDigitsValue(n: nat)
    requires n < 10000
    ensures AllDigits(FourDigits(n)) && DigitsValue(FourDigits(n)) == n
  {
    var s := FourDigits(n);
    assert s[..3][..2] == s[..2];
    assert s[..2][..1] == s[..1];
    assert s[..1][..0] == [];
    assert DigitsValue(s[..1]) == n / 1000;
    assert DigitsValue(s[..2]) == n / 100;
    assert DigitsValue(s[..3]) == n / 10;
  }

  /** A date written in the canonical form parses back to itself. */
  lemma ParseFormatDate(d: Date)
    requires ValidDate(d)
    ensures ParseDate(FormatDate(d)) == Success(d)
  {
    FourDigitsValue(d.year);
    assert MonthToken(TwoDigits(d.month)) == Some(d.month);
    assert DayToken(TwoDigits(d.day)) == Some(d.day);
    ParseDateOfParts(FourDigits(d.year), TwoDigits(d.month), TwoDigits(d.day));
  }

  /** `strptime` also accepts one-digit months and days. */
  lemma ParseDateUnpadded()
    ensures ParseDate("2000-5-1") == Success(Date(2000, 5, 1))
  {
    FourDigitsValue(2000);
    assert FourDigits(2000) == "2000";
    ParseDateOfParts("2000", "5", "1");
    assert "2000" + "-" + "5" + "-" + "1" == "2000-5-1";
  }

  /** Day 29 of February exists only in leap years. */
  lemma ParseDateLeapDay()
    ensures ParseDate("2000-02-29") == Success(Date(2000, 2, 29))
    ensures ParseDate("1900-02-29") == Failure(OutOfRange)
  {
    FourDigitsValue(2000);
    assert FourDigits(2000) == "2000";
    ParseDateOfParts("2000", "02", "29");
    assert "2000" + "-" + "02" + "-" + "29" == "2000-02-29";
    FourDigitsValue(1900);
    assert FourDigits(1900) == "1900";
    ParseDateOfParts("1900", "02", "29");
    assert "1900" + "-" + "02" + "-" + "29" == "1900-02-29";
  }

  lemma ParseDateExamples()
    ensures ParseDate("2000-05-01") == Success(Date(2000, 5, 1))
    ensures ParseDate("2010-01-01") == Success(Date(2010, 1, 1))
  {
    ParseFormatDate(Date(2000, 5, 1));
    assert FourDigits(2000) == "2000";
    assert FormatDate(Date(2000, 5, 1)) == "2000-05-01";
    ParseFormatDate(Date(2010, 1, 1));
    assert FourDigits(2010) == "2010";
    assert FormatDate(Date(2010, 1, 1)) == "2010-01-01";
  }
}
