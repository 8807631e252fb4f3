/**
 * Calendar dates and the two date helpers of rendercv/data_model.py:
 * `format_date` ("May 2024") and `compute_time_span_string`
 * ("2 years 5 months").
 */
module Dates {
  import opened Wrappers
  import opened Text

  /** A proleptic-Gregorian calendar date, as Python's `datetime.date`. */
  datatype Date = Date(year: int, month: int, day: int)

  const MinYear := 1
  const MaxYear := 9999

  predicate IsLeapYear(y: int)
  {
    y % 4 == 0 && (y % 100 != 0 || y % 400 == 0)
  }

  function DaysInMonth(y: int, m: int): (n: int)
    requires 1 <= m <= 12
    ensures 28 <= n <= 31
  {
    if m == 2 then (if IsLeapYear(y) then 29 else 28)
    else if m == 4 || m == 6 || m == 9 || m == 11 then 30
    else 31
  }

  function DaysInYear(y: int): int
  {
    if IsLeapYear(y) then 366 else 365
  }

  predicate ValidDate(d: Date)
  {
    MinYear <= d.year <= MaxYear && 1 <= d.month <= 12 && 1 <= d.day <= DaysInMonth(d.year, d.month)
  }

  /** The dates Python's `date` can hold: years 1 to 9999. */
  type CalendarDate = d: Date | ValidDate(d) witness Date(1, 1, 1)

  /** Days in the months of a common year before each month. */
  const CumulativeDays: seq<int> := [0, 31, 59, 90, 120, 151, 181, 212, 243, 273, 304, 334]

  function DaysBeforeYear(y: int): int
    requires y >= 1
  {
    var p := y - 1;
    p * 365 + p / 4 - p / 100 + p / 400
  }

  function DaysBeforeMonth(y: int, m: int): int
    requires 1 <= m <= 12
  {
    CumulativeDays[m - 1] + (if m > 2 && IsLeapYear(y) then 1 else 0)
  }

  /** Day number counted from 0001-01-01, which is day 1 (Python's `date.toordinal`). */
  function Ordinal(d: CalendarDate): int
  {
    DaysBeforeYear(d.year) + DaysBeforeMonth(d.year, d.month) + d.day
  }

  /** `(end - start).days` */
  function DaysBetween(start: CalendarDate, end: CalendarDate): int
  {
    Ordinal(end) - Ordinal(start)
  }

  /** Chronological order, defined field by field and independently of `Ordinal`. */
  predicate Before(a: Date, b: Date)
  {
    a.year < b.year
    || (a.year == b.year && a.month < b.month)
    || (a.year == b.year && a.month == b.month && a.day < b.day)
  }

  /** Pydantic's `PastDate`: strictly before today. */
  predicate IsPastDate(d: CalendarDate, today: CalendarDate)
  {
    Before(d, today)
  }

  lemma MonthStep(y: int, m: int)
    requires 1 <= m < 12
    ensures DaysBeforeMonth(y, m) + DaysInMonth(y, m) == DaysBeforeMonth(y, m + 1)
  {
  }

  lemma MonthsFitInYear(y: int, m: int)
    requires 1 <= m <= 12
    ensures DaysBeforeMonth(y, m) + DaysInMonth(y, m) <= DaysInYear(y)
  {
  }

  lemma {:induction false} MonthsIncrease(y: int, m1: int, m2: int)
    requires 1 <= m1 < m2 <= 12
    ensures DaysBeforeMonth(y, m1) + DaysInMonth(y, m1) <= DaysBeforeMonth(y, m2)
    decreases m2 - m1
  {
    MonthStep(y, m1);
    if m1 + 1 < m2 {
      MonthsIncrease(y, m1 + 1, m2);
    }
  }

  lemma YearStep(y: int)
    requires y >= 1
    ensures DaysBeforeYear(y) + DaysInYear(y) == DaysBeforeYear(y + 1)
  {
    var p := y - 1;
    DivStep(y, 4);
    DivStep(y, 100);
    DivStep(y, 400);
    assert y * 365 == p * 365 + 365;
    assert DaysBeforeYear(y + 1) - DaysBeforeYear(y)
        == 365 + (y / 4 - p / 4) - (y / 100 - p / 100) + (y / 400 - p / 400);
  }

  /** Moving from `y - 1` to `y` adds one to `y / d` exactly when `d` divides `y`. */
  lemma DivStep(y: int, d: int)
    requires d == 4 || d == 100 || d == 400
    ensures y / d - (y - 1) / d == if y % d == 0 then 1 else 0
  {
    if d == 4 {
      assert y / 4 - (y - 1) / 4 == if y % 4 == 0 then 1 else 0;
    } else if d == 100 {
      assert y / 100 - (y - 1) / 100 == if y % 100 == 0 then 1 else 0;
    } else {
      assert y / 400 - (y - 1) / 400 == if y % 400 == 0 then 1 else 0;
    }
  }

  lemma {:induction false} YearsIncrease(y1: int, y2: int)
    requires 1 <= y1 < y2
    ensures DaysBeforeYear(y1) + DaysInYear(y1) <= DaysBeforeYear(y2)
    decreases y2 - y1
  {
    YearStep(y1);
    if y1 + 1 < y2 {
      YearsIncrease(y1 + 1, y2);
      YearStep(y1 + 1);
    }
  }

  lemma OrdinalIncreases(a: CalendarDate, b: CalendarDate)
    requires Before(a, b)
    ensures Ordinal(a) < Ordinal(b)
  {
    if a.year < b.year {
      MonthsFitInYear(a.year, a.month);
      YearsIncrease(a.year, b.year);
    } else if a.month < b.month {
      MonthsIncrease(a.year, a.month, b.month);
    }
  }

  /** The day ordinal orders dates chronologically, and no two dates share an ordinal. */
  lemma OrdinalOrder(a: CalendarDate, b: CalendarDate)
    ensures Before(a, b) <==> Ordinal(a) < Ordinal(b)
    ensures a == b <==> Ordinal(a) == Ordinal(b)
  {
    if Before(a, b) {
      OrdinalIncreases(a, b);
    } else if Before(b, a) {
      OrdinalIncreases(b, a);
    }
  }

  /** A past date lies a positive number of days before today. */
  lemma PastDateHasPositiveSpan(d: CalendarDate, today: CalendarDate)
    ensures IsPastDate(d, today) <==> DaysBetween(d, today) > 0
  {
    OrdinalOrder(d, today);
  }

  // ---------------------------------------------------------------------
  // ISO 8601 "YYYY-MM-DD"
  // ---------------------------------------------------------------------

  function Digits2(n: int): (r: string)
    requires 0 <= n < 100
    ensures |r| == 2
  {
    [DigitChar(n / 10), DigitChar(n % 10)]
  }

  function Digits4(n: int): (r: string)
    requires 0 <= n < 10000
    ensures |r| == 4
  {
    [DigitChar(n / 1000), DigitChar(n / 100 % 10), DigitChar(n / 10 % 10), DigitChar(n % 10)]
  }

  /** Python's `date.isoformat()`. */
  function IsoFormat(d: CalendarDate): (r: string)
    ensures |r| == 10
  {
    Digits4(d.year) + "-" + Digits2(d.month) + "-" + Digits2(d.day)
  }

  predicate IsIsoShape(s: string)
  {
    |s| == 10 && s[4] == '-' && s[7] == '-'
    && IsDigit(s[0]) && IsDigit(s[1]) && IsDigit(s[2]) && IsDigit(s[3])
    && IsDigit(s[5]) && IsDigit(s[6]) && IsDigit(s[8]) && IsDigit(s[9])
  }

  /** The strict "YYYY-MM-DD" form of `date.fromisoformat`; `None` where Python raises. */
  function ParseIsoDate(s: string): (r: Option<CalendarDate>)
  {
    if !IsIsoShape(s) then None
    else
      var y := DigitValue(s[0]) * 1000 + DigitValue(s[1]) * 100 + DigitValue(s[2]) * 10 + DigitValue(s[3]);
      var m := DigitValue(s[5]) * 10 + DigitValue(s[6]);
      var d := DigitValue(s[8]) * 10 + DigitValue(s[9]);
      if ValidDate(Date(y, m, d)) then Some(Date(y, m, d)) else None
  }

  /** The four digits of a year, read back, give the year. */
  lemma Digits4Value(n: int)
    requires 0 <= n < 10000
    ensures var r := Digits4(n);
      DigitValue(r[0]) * 1000 + DigitValue(r[1]) * 100 + DigitValue(r[2]) * 10 + DigitValue(r[3]) == n
  {
    var a, r1 := n / 1000, n % 1000;
    var b, r2 := r1 / 100, r1 % 100;
    var c, e := r2 / 10, r2 % 10;
    assert n == 1000 * a + r1 && 0 <= r1 < 1000 && a < 10;
    assert r1 == 100 * b + r2 && 0 <= r2 < 100;
    assert r2 == 10 * c + e && 0 <= e < 10;
    Digits4OfValue(a, b, c, e);
    DigitValueOfChar(a);
    DigitValueOfChar(b);
    DigitValueOfChar(c);
    DigitValueOfChar(e);
  }

  /** Quotient and remainder by 10, 100 or 1000 are the unique ones. */
  lemma QuotRem(x: int, d: int, q: int, r: int)
    requires d == 10 || d == 100 || d == 1000
    requires 0 <= r < d && x == d * q + r
    ensures x / d == q && x % d == r
  {
    if d == 10 {
      assert x == 10 * q + r;
    } else if d == 100 {
      assert x == 100 * q + r;
    } else {
      assert x == 1000 * q + r;
    }
  }

  /** Four digit values make the four digits of their number. */
  lemma Digits4OfValue(a: int, b: int, c: int, e: int)
    requires 0 <= a < 10 && 0 <= b < 10 && 0 <= c < 10 && 0 <= e < 10
    ensures Digits4(1000 * a + 100 * b + 10 * c + e) == [DigitChar(a), DigitChar(b), DigitChar(c), DigitChar(e)]
  {
    var n := 1000 * a + 100 * b + 10 * c + e;
    QuotRem(n, 1000, a, 100 * b + 10 * c + e);
    QuotRem(n, 100, 10 * a + b, 10 * c + e);
    QuotRem(10 * a + b, 10, a, b);
    QuotRem(n, 10, 100 * a + 10 * b + c, e);
    QuotRem(100 * a + 10 * b + c, 10, 10 * a + b, c);
  }

  lemma Digits2OfValue(a: int, b: int)
    requires 0 <= a < 10 && 0 <= b < 10
    ensures Digits2(10 * a + b) == [DigitChar(a), DigitChar(b)]
  {
  }

  lemma IsoFormatParses(d: CalendarDate)
    ensures ParseIsoDate(IsoFormat(d)) == Some(d)
  {
    var r := IsoFormat(d);
    assert IsIsoShape(r);
    Digits4Value(d.year);
  }

  lemma IsoParseIsCanonical(s: string, d: CalendarDate)
    requires ParseIsoDate(s) == Some(d)
    ensures s == IsoFormat(d)
  {
    var a, b, c, e := DigitValue(s[0]), DigitValue(s[1]), DigitValue(s[2]), DigitValue(s[3]);
    Digits4OfValue(a, b, c, e);
    Digits2OfValue(DigitValue(s[5]), DigitValue(s[6]));
    Digits2OfValue(DigitValue(s[8]), DigitValue(s[9]));
    assert Digits4(d.year) == [s[0], s[1], s[2], s[3]];
    assert Digits2(d.month) == [s[5], s[6]];
    assert Digits2(d.day) == [s[8], s[9]];
    var w := [s[0], s[1], s[2], s[3]] + "-" + [s[5], s[6]] + "-" + [s[8], s[9]];
    assert IsoFormat(d) == w;
    forall i | 0 <= i < 10 ensures s[i] == w[i] {
    }
  }

  /** Parsing and printing in ISO form are inverse: a string parses to `d` exactly when it is `d`'s ISO form. */
  lemma IsoRoundTrip(s: string, d: CalendarDate)
    ensures ParseIsoDate(s) == Some(d) <==> s == IsoFormat(d)
  {
    IsoFormatParses(d);
    if ParseIsoDate(s) == Some(d) {
      IsoParseIsCanonical(s, d);
    }
  }

  // ---------------------------------------------------------------------
  // format_date
  // ---------------------------------------------------------------------

  /** The fixed month abbreviations of the Yale University Library. */
  const MonthAbbreviations: seq<string> :=
    ["Jan.", "Feb.", "Mar.", "Apr.", "May", "June", "July", "Aug.", "Sept.", "Oct.", "Nov.", "Dec."]

  /** `format_date`: the month abbreviation, a space, and the year. */
  function FormatDate(d: CalendarDate): string
  {
    MonthAbbreviations[d.month - 1] + " " + NatToString(d.year)
  }

  lemma FormatDateExample()
    ensures FormatDate(Date(2024, 5, 1)) == "May 2024"
  {
    assert NatToString(2024) == "2024";
  }

  lemma AbbreviationsHaveNoSpace(m: int)
    requires 1 <= m <= 12
    ensures ' ' !in MonthAbbreviations[m - 1]
  {
  }

  lemma AbbreviationsDistinct(m1: int, m2: int)
    requires 1 <= m1 <= 12 && 1 <= m2 <= 12
    ensures MonthAbbreviations[m1 - 1] == MonthAbbreviations[m2 - 1] <==> m1 == m2
  {
  }

  /** Position of the first space. */
  function FirstSpace(s: string): nat
    requires ' ' in s
  {
    if s[0] == ' ' then 0 else 1 + FirstSpace(s[1..])
  }

  lemma {:induction false} FirstSpaceAfter(a: string, b: string)
    requires ' ' !in a
    ensures FirstSpace(a + " " + b) == |a|
  {
    if a != [] {
      assert (a + " " + b)[1..] == a[1..] + " " + b;
      FirstSpaceAfter(a[1..], b);
    }
  }

  /** `a + " " + b` splits uniquely at its first space when `a` has none. */
  lemma SplitAtFirstSpace(a1: string, b1: string, a2: string, b2: string)
    requires ' ' !in a1 && ' ' !in a2
    requires a1 + " " + b1 == a2 + " " + b2
    ensures a1 == a2 && b1 == b2
  {
    var s := a1 + " " + b1;
    FirstSpaceAfter(a1, b1);
    FirstSpaceAfter(a2, b2);
    assert a1 == s[..|a1|] == a2;
    assert b1 == s[|a1| + 1..] == b2;
  }

  /** Two dates print the same exactly when they fall in the same month of the same year. */
  lemma FormatDateInjective(a: CalendarDate, b: CalendarDate)
    ensures FormatDate(a) == FormatDate(b) <==> a.month == b.month && a.year == b.year
  {
    if FormatDate(a) == FormatDate(b) {
      AbbreviationsHaveNoSpace(a.month);
      AbbreviationsHaveNoSpace(b.month);
      SplitAtFirstSpace(MonthAbbreviations[a.month - 1], NatToString(a.year),
                        MonthAbbreviations[b.month - 1], NatToString(b.year));
      AbbreviationsDistinct(a.month, b.month);
      NatToStringInjective(a.year, b.year);
    }
  }

  /** A formatted date never mentions a year or a month as a word. */
  lemma FormatDateFree(d: CalendarDate)
    ensures FreeOfYearAndMonth(FormatDate(d))
  {
    var a := MonthAbbreviations[d.month - 1] + " ";
    assert FreeOfYearAndMonth(a);
    DigitsFree(NatToString(d.year));
    FreeOfYearAndMonthConcat(a, NatToString(d.year));
  }

  // ---------------------------------------------------------------------
  // compute_time_span_string
  // ---------------------------------------------------------------------

  /** Python's `round(r / 30)`: to the nearest integer, halves to the even neighbour. */
  function RoundThirtieths(r: int): int
  {
    var q := r / 30;
    var rem := r % 30;
    if 2 * rem > 30 || (2 * rem == 30 && q % 2 == 1) then q + 1 else q
  }

  /** `RoundThirtieths` gives exactly the nearest integer to `r / 30`, a tie going to the even one. */
  lemma RoundThirtiethsIsNearest(r: int, m: int)
    ensures m == RoundThirtieths(r) <==>
      (-15 <= r - 30 * m <= 15
       && (r - 30 * m == 15 ==> m % 2 == 0)
       && (r - 30 * m == -15 ==> m % 2 == 0))
  {
    var q := r / 30;
    var rem := r % 30;
    assert r == 30 * q + rem;
  }

  /** `days // 365` */
  function YearCount(days: int): int
  {
    days / 365
  }

  /** `round((days % 365) / 30)`, forced up to 1 when it is 0. */
  function MonthCount(days: int): int
  {
    var m := RoundThirtieths(days % 365);
    if m == 0 then 1 else m
  }

  /** The month count is always between 1 and 12: the source's "no months" branches never run. */
  lemma MonthCountRange(days: int)
    ensures 1 <= MonthCount(days) <= 12
  {
    var r := days % 365;
    assert 0 <= r < 365;
  }

  /** "1 year" / "N years", "1 month" / "N months". */
  function CountPhrase(n: int, unit: string): string
  {
    if n == 1 then "1 " + unit else IntToString(n) + " " + unit + "s"
  }

  /** `compute_time_span_string` on the day difference. */
  function TimeSpanString(days: int): string
  {
    var years := YearCount(days);
    var yearsString: Option<string> := if years == 0 then None else Some(CountPhrase(years, "year"));
    var monthsString := CountPhrase(MonthCount(days), "month");
    match yearsString
    case None => monthsString
    case Some(y) => y + " " + monthsString
  }

  /** `compute_time_span_string(start_date, end_date)` */
  function ComputeTimeSpanString(start: CalendarDate, end: CalendarDate): string
  {
    TimeSpanString(DaysBetween(start, end))
  }

  lemma MonthPhraseShape(m: int)
    requires 1 <= m <= 12
    ensures Contains(CountPhrase(m, "month"), "month")
    ensures !Contains(CountPhrase(m, "month"), "year")
  {
    var p := CountPhrase(m, "month");
    if m == 1 {
      assert p == "1 " + "month";
      ContainsItself("month", "");
      assert "month" + "" == "month";
      ContainsAfter("1 ", "month", "month");
    } else {
      var digits := NatToString(m);
      assert p == (digits + " ") + ("month" + "s");
      ContainsItself("month", "s");
      ContainsAfter(digits + " ", "month" + "s", "month");
    }
    assert forall i :: 0 <= i < |p| ==> p[i] != 'y';
    MissingCharNotContained(p, "year", 0);
  }

  lemma YearPhraseShape(y: int)
    requires y != 0
    ensures Contains(CountPhrase(y, "year"), "year")
  {
    if y == 1 {
      ContainsItself("year", "");
      assert "year" + "" == "year";
      ContainsAfter("1 ", "year", "year");
    } else {
      assert CountPhrase(y, "year") == (IntToString(y) + " ") + ("year" + "s");
      ContainsItself("year", "s");
      ContainsAfter(IntToString(y) + " ", "year" + "s", "year");
    }
  }

  /** With a year count the span is the year phrase, a space and the month phrase. */
  lemma TimeSpanWithYears(days: int)
    requires YearCount(days) != 0
    ensures TimeSpanString(days) == CountPhrase(YearCount(days), "year") + " " + CountPhrase(MonthCount(days), "month")
  {
  }

  /** A year phrase and a month phrase joined by a space mention both. */
  lemma JoinedMentionsBoth(yp: string, mp: string)
    requires Contains(yp, "year") && Contains(mp, "month")
    ensures Contains(yp + " " + mp, "year") && Contains(yp + " " + mp, "month")
  {
    assert yp + " " + mp == yp + (" " + mp) == (yp + " ") + mp;
    ContainsBefore(yp, " " + mp, "year");
    ContainsAfter(yp + " ", mp, "month");
  }

  /** Without a year count the span is the month phrase alone; it mentions a month and no year. */
  lemma TimeSpanWithoutYears(days: int)
    requires YearCount(days) == 0
    ensures TimeSpanString(days) == CountPhrase(MonthCount(days), "month")
    ensures !Contains(TimeSpanString(days), "year") && Contains(TimeSpanString(days), "month")
  {
    MonthCountRange(days);
    MonthPhraseShape(MonthCount(days));
  }

  /**
   * The time span always names a month count between 1 and 12, so it mentions
   * "month"; it mentions "year" exactly when `days // 365` is not zero.
   */
  lemma TimeSpanShape(days: int)
    ensures 1 <= MonthCount(days) <= 12
    ensures Contains(TimeSpanString(days), "month")
    ensures Contains(TimeSpanString(days), "year") <==> YearCount(days) != 0
  {
    MonthCountRange(days);
    if YearCount(days) != 0 {
      TimeSpanWithYears(days);
      MonthPhraseShape(MonthCount(days));
      YearPhraseShape(YearCount(days));
      JoinedMentionsBoth(CountPhrase(YearCount(days), "year"), CountPhrase(MonthCount(days), "month"));
    } else {
      TimeSpanWithoutYears(days);
    }
  }

  /** A zero-day span reads "1 month", never "0 months" or the empty string. */
  lemma ZeroSpanIsOneMonth()
    ensures TimeSpanString(0) == "1 month"
  {
  }

  lemma TimeSpanExample()
    ensures ComputeTimeSpanString(Date(2022, 9, 24), Date(2025, 2, 12)) == "2 years 5 months"
  {
    assert DaysBetween(Date(2022, 9, 24), Date(2025, 2, 12)) == 872;
    assert YearCount(872) == 2 && MonthCount(872) == 5;
  }
}
