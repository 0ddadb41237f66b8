/**
  `parse_date(s)`: a date typed as text into a form, read with
  `datetime.strptime(s, '%Y-%m-%d')`. An empty string, a string the format
  does not match, text left over after the day, and a day the calendar does
  not have all give None (the ValueError the source catches).

  The format's fields match as Python's `_strptime` regular expressions do:
  `%Y` is exactly four digits, `%m` is `1[0-2]|0[1-9]|[1-9]` and `%d` is
  `3[01]|[12]\d|0[1-9]|[1-9]| [1-9]`, alternatives tried in that order.
*/
module DateParsing {
  import opened Wrappers
  import opened Text
  import opened Dates

  function Digit(c: char): int {
    c as int - '0' as int
  }

  /** The `%m` field at the start of r, followed by the '-' of the format: the month and its length. */
  function MatchMonth(r: string): (m: Option<(int, nat)>)
    ensures m.Some? ==> 1 <= m.value.0 <= 12 && 1 <= m.value.1 <= 2 && m.value.1 + 1 <= |r|
  {
    if |r| >= 3 && r[0] == '1' && '0' <= r[1] <= '2' && r[2] == '-' then Some((10 + Digit(r[1]), 2))
    else if |r| >= 3 && r[0] == '0' && '1' <= r[1] <= '9' && r[2] == '-' then Some((Digit(r[1]), 2))
    else if |r| >= 2 && '1' <= r[0] <= '9' && r[1] == '-' then Some((Digit(r[0]), 1))
    else None
  }

  /** The `%d` field at the start of r: the day and its length. */
  function MatchDay(r: string): (m: Option<(int, nat)>)
    ensures m.Some? ==> 1 <= m.value.0 <= 31 && 1 <= m.value.1 <= 2 && m.value.1 <= |r|
  {
    if |r| >= 2 && r[0] == '3' && '0' <= r[1] <= '1' then Some((30 + Digit(r[1]), 2))
    else if |r| >= 2 && '1' <= r[0] <= '2' && IsDigit(r[1]) then Some((10 * Digit(r[0]) + Digit(r[1]), 2))
    else if |r| >= 2 && r[0] == '0' && '1' <= r[1] <= '9' then Some((Digit(r[1]), 2))
    else if |r| >= 1 && '1' <= r[0] <= '9' then Some((Digit(r[0]), 1))
    else if |r| >= 2 && r[0] == ' ' && '1' <= r[1] <= '9' then Some((Digit(r[1]), 2))
    else None
  }

  /** The value of the `%Y` field: four digits. */
  function YearOf(s: string): int
    requires |s| >= 4 && AllDigits(s[..4])
  {
    assert IsDigit(s[..4][0]) && IsDigit(s[..4][1]) && IsDigit(s[..4][2]) && IsDigit(s[..4][3]);
    1000 * Digit(s[0]) + 100 * Digit(s[1]) + 10 * Digit(s[2]) + Digit(s[3])
  }

  /** `parse_date(s)`. */
  function ParseDate(s: string): Option<CalendarDate> {
    if s == [] then None
    else if |s| < 5 || !AllDigits(s[..4]) || s[4] != '-' then None
    else
      var year := YearOf(s);
      var rest := s[5..];
      match MatchMonth(rest)
      case None => None
      case Some((month, n)) =>
        var dayText := rest[n + 1..];
        match MatchDay(dayText)
        case None => None
        case Some((day, k)) =>
          if k != |dayText| then None
          else if year < MinYear || day > DaysInMonth(year, month) then None
          else Some(Date(year, month, day))
  }

  // ---------------------------------------------------------------------
  // The spellings a date accepts
  // ---------------------------------------------------------------------

  function Pad2(n: int): string
    requires 0 <= n < 100
  {
    [DigitChar(n / 10), DigitChar(n % 10)]
  }

  function Pad4(n: int): string
    requires 0 <= n < 10000
  {
    [DigitChar(n / 1000), DigitChar(n / 100 % 10), DigitChar(n / 10 % 10), DigitChar(n % 10)]
  }

  /** The ISO spelling `YYYY-MM-DD`, zero-padded. */
  function IsoText(d: CalendarDate): string {
    Pad4(d.year) + "-" + Pad2(d.month) + "-" + Pad2(d.day)
  }

  /** `%m` reads a month as two digits, or as one digit below 10. */
  function MonthSpellings(m: int): set<string>
    requires 1 <= m <= 12
  {
    {Pad2(m)} + (if m < 10 then {[DigitChar(m)]} else {})
  }

  /** `%d` reads a day as two digits, or below 10 as one digit with or without a leading space. */
  function DaySpellings(d: int): set<string>
    requires 1 <= d <= 31
  {
    {Pad2(d)} + (if d < 10 then {[DigitChar(d)], [' ', DigitChar(d)]} else {})
  }

  predicate SpelledAs(s: string, d: CalendarDate) {
    exists ms, ds :: ms in MonthSpellings(d.month) && ds in DaySpellings(d.day)
      && s == Pad4(d.year) + "-" + ms + "-" + ds
  }

  // ---------------------------------------------------------------------
  // What parse_date accepts
  // ---------------------------------------------------------------------

  lemma DigitOfDigitChar(n: int)
    requires 0 <= n < 10
    ensures IsDigit(DigitChar(n)) && Digit(DigitChar(n)) == n
  {
  }

  lemma DigitCharOfDigit(c: char)
    requires IsDigit(c)
    ensures DigitChar(Digit(c)) == c
  {
  }

  /** The decimal digits of a four-digit number, most significant first. */
  lemma FourDigits(y: int, a: int, b: int, c: int, e: int)
    requires 0 <= a < 10 && 0 <= b < 10 && 0 <= c < 10 && 0 <= e < 10
    requires y == 1000 * a + 100 * b + 10 * c + e
    ensures y / 1000 == a && y / 100 % 10 == b && y / 10 % 10 == c && y % 10 == e
  {
    assert y / 10 == 100 * a + 10 * b + c;
    assert y / 100 == (y / 10) / 10 == 10 * a + b;
    assert y / 1000 == (y / 100) / 10 == a;
  }

  /** The year field of a spelling: four digits with the year's value, then '-'. */
  lemma YearField(y: int, tail: string)
    requires 0 <= y < 10000
    ensures var s := Pad4(y) + "-" + tail;
      |s| >= 5 && AllDigits(s[..4]) && s[4] == '-' && YearOf(s) == y && s[5..] == tail
  {
    var s := Pad4(y) + "-" + tail;
    DigitOfDigitChar(y / 1000);
    DigitOfDigitChar(y / 100 % 10);
    DigitOfDigitChar(y / 10 % 10);
    DigitOfDigitChar(y % 10);
    assert s[..4] == Pad4(y);
    Recompose(y);
  }

  lemma Recompose(y: int)
    requires 0 <= y < 10000
    ensures y == 1000 * (y / 1000) + 100 * (y / 100 % 10) + 10 * (y / 10 % 10) + y % 10
  {
    var q1, q2 := y / 10, y / 100;
    assert y == 10 * q1 + y % 10;
    assert q2 == q1 / 10;
    assert q1 == 10 * q2 + q1 % 10;
    assert y / 1000 == q2 / 10;
    assert q2 == 10 * (q2 / 10) + q2 % 10;
  }

  /** The month field of a spelling is matched whole, with its value. */
  lemma MonthField(m: int, ms: string, tail: string)
    requires 1 <= m <= 12 && ms in MonthSpellings(m)
    ensures MatchMonth(ms + "-" + tail) == Some((m, |ms|)) && (ms + "-" + tail)[|ms| + 1..] == tail
  {
    DigitOfDigitChar(m / 10);
    DigitOfDigitChar(m % 10);
    var r := ms + "-" + tail;
    assert r[|ms|] == '-';
  }

  /** The day field of a spelling is matched whole, with its value. */
  lemma DayField(d: int, ds: string)
    requires 1 <= d <= 31 && ds in DaySpellings(d)
    ensures MatchDay(ds) == Some((d, |ds|))
  {
    DigitOfDigitChar(d / 10);
    DigitOfDigitChar(d % 10);
  }

  /** Every spelling of a date parses back to that date. */
  lemma ParseSpelling(d: CalendarDate, ms: string, ds: string)
    requires ms in MonthSpellings(d.month) && ds in DaySpellings(d.day)
    ensures ParseDate(Pad4(d.year) + "-" + ms + "-" + ds) == Some(d)
  {
    var s := Pad4(d.year) + "-" + ms + "-" + ds;
    var rest := ms + "-" + ds;
    assert s == Pad4(d.year) + "-" + rest;
    YearField(d.year, rest);
    MonthField(d.month, ms, ds);
    DayField(d.day, ds);
  }

  /** A matched month field is one of the month's spellings. */
  lemma MatchedMonth(r: string)
    requires MatchMonth(r).Some?
    ensures r[..MatchMonth(r).value.1] in MonthSpellings(MatchMonth(r).value.0)
    ensures r[MatchMonth(r).value.1] == '-'
  {
    var (m, n) := MatchMonth(r).value;
    DigitCharOfDigit(r[0]);
    if n == 2 {
      DigitCharOfDigit(r[1]);
      assert r[..n] == [r[0], r[1]];
      assert r[..n] == Pad2(m);
    } else {
      assert r[..n] == [DigitChar(m)];
    }
  }

  /** A day field matched to the end is one of the day's spellings. */
  lemma MatchedDay(r: string)
    requires MatchDay(r).Some? && MatchDay(r).value.1 == |r|
    ensures r in DaySpellings(MatchDay(r).value.0)
  {
    var (d, n) := MatchDay(r).value;
    if n == 2 {
      DigitCharOfDigit(r[1]);
      assert r == [r[0], r[1]];
      if r[0] == ' ' {
        assert r == [' ', DigitChar(d)];
      } else {
        DigitCharOfDigit(r[0]);
        assert r == Pad2(d);
      }
    } else {
      DigitCharOfDigit(r[0]);
      assert r == [DigitChar(d)];
    }
  }

  /** The year field read back is the zero-padded year. */
  lemma MatchedYear(s: string)
    requires |s| >= 4 && AllDigits(s[..4])
    ensures 0 <= YearOf(s) < 10000 && Pad4(YearOf(s)) == s[..4]
  {
    assert IsDigit(s[..4][0]) && IsDigit(s[..4][1]) && IsDigit(s[..4][2]) && IsDigit(s[..4][3]);
    FourDigits(YearOf(s), Digit(s[0]), Digit(s[1]), Digit(s[2]), Digit(s[3]));
    DigitCharOfDigit(s[0]);
    DigitCharOfDigit(s[1]);
    DigitCharOfDigit(s[2]);
    DigitCharOfDigit(s[3]);
    assert s[..4] == [s[0], s[1], s[2], s[3]];
  }

  /** A string that parses is one of the spellings of the date it gives. */
  lemma ParsedIsSpelling(s: string)
    requires ParseDate(s).Some?
    ensures SpelledAs(s, ParseDate(s).value)
  {
    var d := ParseDate(s).value;
    var rest := s[5..];
    var n := MatchMonth(rest).value.1;
    var ms, ds := rest[..n], rest[n + 1..];
    MatchedYear(s);
    MatchedMonth(rest);
    MatchedDay(ds);
    assert rest == ms + "-" + ds;
    assert s == s[..4] + "-" + rest;
  }

  /** `parse_date` gives d exactly for the spellings of d. */
  lemma ParseDateSpellings(s: string, d: CalendarDate)
    ensures ParseDate(s) == Some(d) <==> SpelledAs(s, d)
  {
    if ParseDate(s) == Some(d) {
      ParsedIsSpelling(s);
    }
    if SpelledAs(s, d) {
      var ms, ds :| ms in MonthSpellings(d.month) && ds in DaySpellings(d.day)
        && s == Pad4(d.year) + "-" + ms + "-" + ds;
      ParseSpelling(d, ms, ds);
    }
  }

  /** The zero-padded ISO text of every date parses back to it. */
  lemma ParseIsoText(d: CalendarDate)
    ensures ParseDate(IsoText(d)) == Some(d)
  {
    ParseSpelling(d, Pad2(d.month), Pad2(d.day));
  }

  /** February 29 is a date only in a leap year. */
  lemma LeapDay(y: int)
    requires MinYear <= y <= MaxYear
    ensures ParseDate(Pad4(y) + "-02-29").Some? <==> IsLeap(y)
  {
    if IsLeap(y) {
      ParseSpelling(Date(y, 2, 29), "02", "29");
      assert Pad4(y) + "-" + "02" + "-" + "29" == Pad4(y) + "-02-29";
    } else {
      NoLeapDay(y);
    }
  }

  /** Outside a leap year, February 29 gets past every field check but the calendar's. */
  lemma NoLeapDay(y: int)
    requires MinYear <= y <= MaxYear && !IsLeap(y)
    ensures ParseDate(Pad4(y) + "-02-29") == None
  {
    var s := Pad4(y) + "-02-29";
    var rest := "02-29";
    assert s == Pad4(y) + "-" + rest;
    YearField(y, rest);
    assert Pad2(2) == "02" && Pad2(29) == "29";
    MonthField(2, "02", "29");
    assert "02" + "-" + "29" == rest;
    assert MatchMonth(s[5..]) == Some((2, 2)) && s[5..][3..] == "29";
    DayField(29, "29");
    assert DaysInMonth(y, 2) == 28;
  }
}
