/** Calendar dates as Python's `datetime` sees them, and the subset of
    `datetime.strptime` the validators use: the directives `%d`, `%m` and `%Y`
    joined by a one-character separator. */
module Calendar {
  import opened Wrappers
  import opened Text

  /** A calendar date at midnight. */
  datatype Date = Date(day: int, month: int, year: int)

  predicate IsLeapYear(y: int)
  {
    y % 4 == 0 && (y % 100 != 0 || y % 400 == 0)
  }

  function DaysInMonth(month: int, year: int): (n: int)
    requires 1 <= month <= 12
    ensures 28 <= n <= 31
    ensures n == 29 <==> month == 2 && IsLeapYear(year)
  {
    if month == 2 then (if IsLeapYear(year) then 29 else 28)
    else if month == 4 || month == 6 || month == 9 || month == 11 then 30
    else 31
  }

  /** `datetime(year, month, day)` accepts the triple. */
  predicate IsValid(d: Date)
  {
    1 <= d.year <= 9999 && 1 <= d.month <= 12 && 1 <= d.day <= DaysInMonth(d.month, d.year)
  }

  /** `a > b`, where `a` is a parsed date (midnight) and `b` the date of the
      current instant: midnight of a day lies after an instant exactly when
      that day is a later calendar day. */
  predicate IsAfter(a: Date, b: Date)
  {
    || a.year > b.year
    || (a.year == b.year && a.month > b.month)
    || (a.year == b.year && a.month == b.month && a.day > b.day)
  }

  /** The two layouts used: `%d<sep>%m<sep>%Y` and `%Y<sep>%m<sep>%d`. */
  datatype Format = DayMonthYear(sep: char) | YearMonthDay(sep: char)

  /** What `%d` accepts: `3[01]|[12]\d|0[1-9]|[1-9]| [1-9]`, that is one or two
      digits worth 1 to 31, or a space and one non-zero digit. */
  function DayField(t: string): (r: Option<int>)
    ensures r.Some? ==> 1 <= r.value <= 31
  {
    if |t| == 2 && t[0] == ' ' && '1' <= t[1] <= '9' then Some(DigitValue(t[1]))
    else if 1 <= |t| <= 2 && AllDigits(t) && 1 <= DigitsValue(t) <= 31 then Some(DigitsValue(t))
    else None
  }

  /** What `%m` accepts: `1[0-2]|0[1-9]|[1-9]`, one or two digits worth 1 to 12. */
  function MonthField(t: string): (r: Option<int>)
    ensures r.Some? ==> 1 <= r.value <= 12
  {
    if 1 <= |t| <= 2 && AllDigits(t) && 1 <= DigitsValue(t) <= 12 then Some(DigitsValue(t)) else None
  }

  /** What `%Y` accepts: exactly four digits. */
  function YearField(t: string): (r: Option<int>)
    ensures r.Some? ==> 0 <= r.value <= 9999
  {
    if |t| == 4 && AllDigits(t) then
      DigitsValueBound(t);
      Some(DigitsValue(t))
    else None
  }

  /** `datetime.strptime(s, fmt)`: `None` where Python raises `ValueError`,
      either because the text does not have the layout or because the fields
      do not form a date of the calendar (day 31 of April, year 0, ...). */
  function Strptime(s: string, fmt: Format): (r: Option<Date>)
    ensures r.Some? ==> IsValid(r.value)
  {
    var parts := Split(s, fmt.sep);
    if |parts| != 3 then None
    else
      var dayText := if fmt.DayMonthYear? then parts[0] else parts[2];
      var yearText := if fmt.DayMonthYear? then parts[2] else parts[0];
      match (DayField(dayText), MonthField(parts[1]), YearField(yearText))
      case (Some(d), Some(m), Some(y)) =>
        if IsValid(Date(d, m, y)) then Some(Date(d, m, y)) else None
      case _ => None
  }

  /** `date.strftime` with the same layout: two-digit day and month, four-digit
      year. */
  function Render(d: Date, fmt: Format): (r: string)
    requires IsValid(d)
    ensures |r| == 10 && IsDigit(r[0]) && IsDigit(r[9])
  {
    var dd := FixedDigits(d.day, 2);
    var mm := FixedDigits(d.month, 2);
    var yyyy := FixedDigits(d.year, 4);
    match fmt
    case DayMonthYear(sep) => dd + [sep] + mm + [sep] + yyyy
    case YearMonthDay(sep) => yyyy + [sep] + mm + [sep] + dd
  }

  /** The fixed-width fields of a valid date read back as its numbers. */
  lemma RenderedFields(d: Date)
    requires IsValid(d)
    ensures DayField(FixedDigits(d.day, 2)) == Some(d.day)
    ensures MonthField(FixedDigits(d.month, 2)) == Some(d.month)
    ensures YearField(FixedDigits(d.year, 4)) == Some(d.year)
  {
    assert Pow10(2) == 100 && Pow10(4) == 10000;
    assert FixedDigits(d.day, 2)[0] != ' ';
  }

  /** Three separator-free groups joined by the separator split back apart. */
  lemma SplitThree(a: string, b: string, c: string, sep: char)
    requires sep !in a && sep !in b && sep !in c
    ensures Split(a + [sep] + b + [sep] + c, sep) == [a, b, c]
  {
    assert a + [sep] + b + [sep] + c == a + [sep] + (b + [sep] + c);
    SplitPrefix(a, b + [sep] + c, sep);
    SplitPrefix(b, c, sep);
    SplitPrefix(c, "", sep);
  }

  /** Parsing what `strftime` wrote gives the date back. */
  lemma RenderParses(d: Date, fmt: Format)
    requires IsValid(d) && !IsDigit(fmt.sep)
    ensures Strptime(Render(d, fmt), fmt) == Some(d)
  {
    var sep := fmt.sep;
    var dd := FixedDigits(d.day, 2);
    var mm := FixedDigits(d.month, 2);
    var yyyy := FixedDigits(d.year, 4);
    var first := if fmt.DayMonthYear? then dd else yyyy;
    var last := if fmt.DayMonthYear? then yyyy else dd;
    assert Render(d, fmt) == first + [sep] + mm + [sep] + last;
    DigitsExclude(first, sep);
    DigitsExclude(mm, sep);
    DigitsExclude(last, sep);
    SplitThree(first, mm, last, sep);
    RenderedFields(d);
  }

  /** How `split` cuts three digit groups joined by two non-digit characters. */
  lemma SplitDigitGroups(a: string, s1: char, b: string, s2: char, c: string, sep: char)
    requires AllDigits(a) && AllDigits(b) && AllDigits(c) && !IsDigit(sep)
    ensures s1 == sep && s2 == sep ==> Split(a + [s1] + b + [s2] + c, sep) == [a, b, c]
    ensures !(s1 == sep && s2 == sep) ==> |Split(a + [s1] + b + [s2] + c, sep)| < 3
  {
    var s := a + [s1] + b + [s2] + c;
    SplitPrefix(c, "", sep);
    if s1 == sep && s2 == sep {
      assert s == a + [sep] + (b + [sep] + c);
      SplitPrefix(a, b + [sep] + c, sep);
      SplitPrefix(b, c, sep);
    } else if s1 == sep {
      assert s == a + [sep] + (b + [s2] + c);
      SplitPrefix(a, b + [s2] + c, sep);
      SplitPrefix(b + [s2] + c, "", sep);
    } else if s2 == sep {
      assert s == (a + [s1] + b) + [sep] + c;
      SplitPrefix(a + [s1] + b, c, sep);
    } else {
      SplitPrefix(s, "", sep);
    }
  }

  /** On text made of three digit groups and two separator characters, `%d-%m-%Y`
      style parsing succeeds exactly when both separators are the expected one,
      the day and month have at most two digits, the year has exactly four,
      and the three numbers form a date. */
  lemma DigitGroupsParse(a: string, s1: char, b: string, s2: char, c: string, sep: char)
    requires |a| >= 1 && |b| >= 1 && |c| >= 1
    requires AllDigits(a) && AllDigits(b) && AllDigits(c)
    requires !IsDigit(sep)
    ensures var date := Date(DigitsValue(a), DigitsValue(b), DigitsValue(c));
            Strptime(a + [s1] + b + [s2] + c, DayMonthYear(sep))
            == if s1 == sep && s2 == sep && |a| <= 2 && |b| <= 2 && |c| == 4 && IsValid(date)
               then Some(date) else None
  {
    var s := a + [s1] + b + [s2] + c;
    var date := Date(DigitsValue(a), DigitsValue(b), DigitsValue(c));
    SplitDigitGroups(a, s1, b, s2, c, sep);
    if s1 == sep && s2 == sep {
      var parts := Split(s, sep);
      assert parts == [a, b, c];
      assert a[0] != ' ';
      if |a| <= 2 && |b| <= 2 && |c| == 4 && IsValid(date) {
        assert DayField(a) == Some(date.day);
        assert MonthField(b) == Some(date.month);
        assert YearField(c) == Some(date.year);
      } else if |a| <= 2 && |b| <= 2 && |c| == 4 && DayField(a).Some? && MonthField(b).Some? {
        assert DayField(a) == Some(date.day);
        assert MonthField(b) == Some(date.month);
        DigitsValueBound(c);
        assert YearField(c) == Some(date.year);
      }
    }
  }
}
