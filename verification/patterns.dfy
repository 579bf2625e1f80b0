/** The regular expressions of the validators, each written as a scanner that
    tries one pattern at one position (`XAt(s, i)`), and `re.search` as the
    leftmost position at which a scanner succeeds.

    Each scanner follows the greedy-with-backtracking order of Python's `re`
    for its pattern; where backtracking could change the outcome the comment
    says which choice wins. Digits, word characters and case-insensitive
    letters are the ASCII ones; `\s` is `Text.IsSpace`. */
module Patterns {
  import opened Wrappers
  import opened Text
  import opened Money

  /** A successful match: where it starts and what it captured. */
  datatype Hit<T> = Hit(pos: nat, value: T)

  /** The first position at or after `from` where `at` succeeds. */
  function FirstHit<T>(s: string, at: (string, nat) -> Option<T>, from: nat): (r: Option<Hit<T>>)
    ensures r.Some? ==> from <= r.value.pos <= |s| && at(s, r.value.pos) == Some(r.value.value)
    ensures r.Some? ==> forall q :: from <= q < r.value.pos ==> at(s, q).None?
    ensures r.None? ==> forall q :: from <= q <= |s| ==> at(s, q).None?
    decreases |s| + 1 - from
  {
    if from > |s| then None
    else
      match at(s, from)
      case Some(v) => Some(Hit(from, v))
      case None => FirstHit(s, at, from + 1)
  }

  /** `re.search(pattern, s)`: the capture of the leftmost match, if any. */
  function Search<T>(s: string, at: (string, nat) -> Option<T>): (r: Option<T>)
    ensures r.None? <==> forall q: nat :: q <= |s| ==> at(s, q).None?
    ensures r.Some? ==> exists p: nat :: p <= |s| && at(s, p) == r
                           && forall q: nat :: q < p ==> at(s, q).None?
  {
    match FirstHit(s, at, 0)
    case Some(h) => Some(h.value)
    case None => None
  }

  /** `^100\d{10}$`: the shape of a tax registration number. */
  predicate IsTrn(t: string)
  {
    |t| == 13 && t[..3] == "100" && AllDigits(t)
  }

  /** `100\d{10}` at `i`. */
  function TrnAt(s: string, i: nat): (r: Option<string>)
    ensures r.Some? <==> TrnRunAt(s, i)
    ensures r.Some? ==> r.value == s[i..i + 13]
  {
    if i + 13 <= |s| && IsTrn(s[i..i + 13]) then Some(s[i..i + 13]) else None
  }

  /** Somewhere in `s` a run `100` plus ten digits occurs. */
  predicate HasTrnRun(s: string)
  {
    exists i: nat | i <= |s| :: TrnRunAt(s, i)
  }

  predicate TrnRunAt(s: string, i: nat)
  {
    i + 13 <= |s| && IsTrn(s[i..i + 13])
  }

  /** `re.search(r'100\d{10}', s)`: what it returns always has the TRN shape,
      and it returns nothing exactly when no such run occurs. */
  function FindTrn(s: string): (r: Option<string>)
    ensures r.Some? ==> IsTrn(r.value) && Contains(s, r.value)
    ensures r.None? <==> !HasTrnRun(s)
  {
    TrnSearchFacts(s);
    Search(s, TrnAt)
  }

  lemma TrnSearchFacts(s: string)
    ensures var r := Search(s, TrnAt);
            (r.Some? ==> IsTrn(r.value) && Contains(s, r.value)) && (r.None? <==> !HasTrnRun(s))
  {
    var r := Search(s, TrnAt);
    if r.Some? {
      var p: nat :| p <= |s| && TrnAt(s, p) == r;
      assert MatchesAt(s, p, r.value);
      assert TrnRunAt(s, p);
    } else {
      forall i: nat | i <= |s|
        ensures !TrnRunAt(s, i)
      {
        assert TrnAt(s, i).None?;
      }
    }
  }

  /** The regex `\b` before a word character at `i`. */
  predicate WordStart(s: string, i: nat)
  {
    i == 0 || (i <= |s| && !IsWordChar(s[i - 1]))
  }

  /** `\b<digit>\s?%` at `i`. The optional space is tried first, so "5 %"
      yields the three characters and "5%" the two. */
  function RateAt(s: string, i: nat, digit: char): (r: Option<string>)
    ensures r.Some? <==> i < |s| && s[i] == digit && WordStart(s, i)
                         && ((i + 1 < |s| && s[i + 1] == '%') || (i + 2 < |s| && IsSpace(s[i + 1]) && s[i + 2] == '%'))
    ensures r.Some? ==> r.value == [digit, '%'] || (|r.value| == 3 && r.value[0] == digit && IsSpace(r.value[1]) && r.value[2] == '%')
    ensures r.Some? ==> i + |r.value| <= |s| && s[i..i + |r.value|] == r.value
  {
    if i < |s| && s[i] == digit && WordStart(s, i) then
      if i + 2 < |s| && IsSpace(s[i + 1]) && s[i + 2] == '%' then Some(s[i..i + 3])
      else if i + 1 < |s| && s[i + 1] == '%' then Some(s[i..i + 2])
      else None
    else None
  }

  predicate IsDateSep(c: char)
  {
    c == '-' || c == '/'
  }

  /** A matched date: three digit groups and the two separators between them,
      kept apart so that rules can reason about the pieces; `Text()` is the
      matched string itself. */
  datatype DateText = DateText(day: string, sep1: char, month: string, sep2: char, year: string)
  {
    function Text(): string
    {
      day + [sep1] + month + [sep2] + year
    }

    /** Digit groups of the given length bounds joined by `-` or `/`. */
    predicate Shaped(dayMonthMin: nat, yearMin: nat)
    {
      && dayMonthMin <= |day| <= 2 && dayMonthMin <= |month| <= 2 && yearMin <= |year| <= 4
      && |day| >= 1 && |month| >= 1 && |year| >= 1
      && AllDigits(day) && AllDigits(month) && AllDigits(year)
      && IsDateSep(sep1) && IsDateSep(sep2)
    }
  }

  /** `\d{2}[-/]\d{2}[-/]\d{4}` at `i`. */
  function FixedDateAt(s: string, i: nat): (r: Option<DateText>)
    ensures r.Some? <==> i + 10 <= |s| && IsDigit(s[i]) && IsDigit(s[i + 1]) && IsDateSep(s[i + 2])
                         && IsDigit(s[i + 3]) && IsDigit(s[i + 4]) && IsDateSep(s[i + 5])
                         && IsDigit(s[i + 6]) && IsDigit(s[i + 7]) && IsDigit(s[i + 8]) && IsDigit(s[i + 9])
    ensures r.Some? ==> r.value.Shaped(2, 4) && |r.value.year| == 4
    ensures r.Some? ==> i + 10 <= |s| && s[i..i + 10] == r.value.Text()
  {
    if i + 10 <= |s| && AllDigits(s[i..i + 2]) && IsDateSep(s[i + 2])
       && AllDigits(s[i + 3..i + 5]) && IsDateSep(s[i + 5]) && AllDigits(s[i + 6..i + 10])
    then
      DateGroupsText(s, i, 2, i + 3, 2, i + 6, 4);
      Some(DateGroups(s, i, 2, i + 3, 2, i + 6, 4, 2, 4))
    else None
  }

  /** A fixed-shape date whose pieces stand at `i` is the one found there. */
  lemma FixedDateIs(s: string, i: nat, d: DateText)
    requires d.Shaped(2, 4) && |d.year| == 4
    requires i + 10 <= |s|
    requires s[i..i + 2] == d.day && s[i + 2] == d.sep1
    requires s[i + 3..i + 5] == d.month && s[i + 5] == d.sep2
    requires s[i + 6..i + 10] == d.year
    ensures FixedDateAt(s, i) == Some(d)
  {
    assert s[i] == d.day[0] && s[i + 1] == d.day[1];
    assert s[i + 3] == d.month[0] && s[i + 4] == d.month[1];
    assert s[i + 6] == d.year[0] && s[i + 7] == d.year[1] && s[i + 8] == d.year[2] && s[i + 9] == d.year[3];
  }

  /** A fixed-shape date written after text with no digit is the date that the
      search finds, whatever follows it. */
  lemma FixedDateReads(pre: string, d: DateText, tail: string)
    requires d.Shaped(2, 4) && |d.year| == 4
    requires forall k :: 0 <= k < |pre| ==> !IsDigit(pre[k])
    ensures Search(pre + d.Text() + tail, FixedDateAt) == Some(d)
  {
    var s := pre + d.Text() + tail;
    DatePieces(pre, d, tail);
    FixedDateIs(s, |pre|, d);
    assert s == pre + (d.Text() + tail);
    forall q: nat | q < |pre|
      ensures FixedDateAt(s, q).None?
    {
      assert s[q] == pre[q];
    }
    SearchPast(s, FixedDateAt, |pre|);
  }

  /** The three digit groups `s[i..i + a]`, `s[j..j + b]`, `s[k..k + c]`, with
      the single separator characters between them. */
  function DateGroups(s: string, i: nat, a: nat, j: nat, b: nat, k: nat, c: nat,
                      dayMonthMin: nat, yearMin: nat): (d: DateText)
    requires j == i + a + 1 && k == j + b + 1 && k + c <= |s|
    requires 1 <= a && dayMonthMin <= a <= 2 && 1 <= b && dayMonthMin <= b <= 2 && 1 <= c && yearMin <= c <= 4
    requires AllDigits(s[i..i + a]) && AllDigits(s[j..j + b]) && AllDigits(s[k..k + c])
    requires IsDateSep(s[i + a]) && IsDateSep(s[j + b])
    ensures d.Shaped(dayMonthMin, yearMin) && |d.year| == c
    ensures d == DateText(s[i..i + a], s[i + a], s[j..j + b], s[j + b], s[k..k + c])
  {
    DateText(s[i..i + a], s[i + a], s[j..j + b], s[j + b], s[k..k + c])
  }

  /** The groups with their separators are the text they were cut from. */
  lemma DateGroupsText(s: string, i: nat, a: nat, j: nat, b: nat, k: nat, c: nat)
    requires j == i + a + 1 && k == j + b + 1 && k + c <= |s|
    ensures DateText(s[i..i + a], s[i + a], s[j..j + b], s[j + b], s[k..k + c]).Text() == s[i..k + c]
  {
    assert s[i..k + c] == s[i..j] + s[j..k + c];
    assert s[i..j] == s[i..i + a] + [s[i + a]];
    assert s[j..k + c] == s[j..j + b] + [s[j + b]] + s[k..k + c];
  }

  /** `\d{1,2}[-/]` at `i`: the length of the digit group (1 or 2), or 0 when
      no such group stands there. */
  function DayMonthRun(s: string, i: nat): (a: nat)
    ensures a <= 2
    ensures a != 0 ==> 1 <= a && i + a < |s| && AllDigits(s[i..i + a]) && IsDateSep(s[i + a])
  {
    if i + 1 < |s| && IsDigit(s[i]) && IsDateSep(s[i + 1]) then 1
    else if i + 2 < |s| && IsDigit(s[i]) && IsDigit(s[i + 1]) && IsDateSep(s[i + 2]) then 2
    else 0
  }

  /** `\d{2,4}\b` at `k`: the length of the year (2 to 4), or 0 when none
      stands there. The shortest length that reaches a word boundary is the
      only one, since a longer run continues with a digit. */
  function YearRun(s: string, k: nat): (c: nat)
    ensures c <= 4
    ensures c != 0 ==> 2 <= c && k + c <= |s| && AllDigits(s[k..k + c]) && (k + c == |s| || !IsWordChar(s[k + c]))
  {
    if k + 2 <= |s| && IsDigit(s[k]) && IsDigit(s[k + 1]) && (k + 2 == |s| || !IsWordChar(s[k + 2])) then 2
    else if k + 3 <= |s| && IsDigit(s[k]) && IsDigit(s[k + 1]) && IsDigit(s[k + 2])
            && (k + 3 == |s| || !IsWordChar(s[k + 3])) then 3
    else if k + 4 <= |s| && IsDigit(s[k]) && IsDigit(s[k + 1]) && IsDigit(s[k + 2]) && IsDigit(s[k + 3])
            && (k + 4 == |s| || !IsWordChar(s[k + 4])) then 4
    else 0
  }

  /** `\b\d{1,2}[-/]\d{1,2}[-/]\d{2,4}\b` at `i`. A day or month group of three
      or more digits cannot be cut short, because the separator must follow;
      the year is a run of two to four digits that no letter, digit or
      underscore follows. */
  function LooseDateAt(s: string, i: nat): (r: Option<DateText>)
    ensures r.Some? ==> r.value.Shaped(1, 2)
  {
    if i >= |s| || !WordStart(s, i) then None
    else
      var a := DayMonthRun(s, i);
      if a == 0 then None
      else
        var j := i + a + 1;
        var b := DayMonthRun(s, j);
        if b == 0 then None
        else
          var k := j + b + 1;
          var c := YearRun(s, k);
          if c == 0 then None
          else Some(DateGroups(s, i, a, j, b, k, c, 1, 2))
  }

  /** Every date of the loose shape that the text holds between word
      boundaries is found there: digit groups of acceptable lengths, joined by
      separators and standing between word boundaries, are the loose date
      found at `i`. With `LooseDateIsDelimited`, a loose date is matched at
      `i` exactly when one is written there. */
  lemma LooseRunsFound(s: string, i: nat, a: nat, j: nat, b: nat, k: nat, c: nat)
    requires WordStart(s, i) && 1 <= a <= 2 && 1 <= b <= 2 && 2 <= c <= 4
    requires j == i + a + 1 && k == j + b + 1 && k + c <= |s|
    requires AllDigits(s[i..i + a]) && IsDateSep(s[i + a])
    requires AllDigits(s[j..j + b]) && IsDateSep(s[j + b])
    requires AllDigits(s[k..k + c]) && (k + c == |s| || !IsWordChar(s[k + c]))
    ensures LooseDateAt(s, i) == Some(DateText(s[i..i + a], s[i + a], s[j..j + b], s[j + b], s[k..k + c]))
  {
    DayMonthRunIs(s, i, a);
    DayMonthRunIs(s, j, b);
    YearRunIs(s, k, c);
    LooseLands(s, i, a, j, b, k, c);
  }

  lemma DayMonthRunIs(s: string, i: nat, a: nat)
    requires 1 <= a <= 2 && i + a < |s| && AllDigits(s[i..i + a]) && IsDateSep(s[i + a])
    ensures DayMonthRun(s, i) == a
  {
    assert s[i..i + a][0] == s[i];
    assert a == 2 ==> s[i..i + a][1] == s[i + 1];
  }

  lemma YearRunIs(s: string, k: nat, c: nat)
    requires 2 <= c <= 4 && k + c <= |s| && AllDigits(s[k..k + c]) && (k + c == |s| || !IsWordChar(s[k + c]))
    ensures YearRun(s, k) == c
  {
    assert s[k..k + c][0] == s[k] && s[k..k + c][1] == s[k + 1];
    assert c >= 3 ==> s[k..k + c][2] == s[k + 2];
    assert c == 4 ==> s[k..k + c][3] == s[k + 3];
  }

  /** The scan of `LooseDateAt` once the three group lengths are known. */
  lemma LooseLands(s: string, i: nat, a: nat, j: nat, b: nat, k: nat, c: nat)
    requires i < |s| && WordStart(s, i) && j == i + a + 1 && k == j + b + 1
    requires DayMonthRun(s, i) == a && a != 0 && DayMonthRun(s, j) == b && b != 0
    requires YearRun(s, k) == c && c != 0
    ensures LooseDateAt(s, i) == Some(DateText(s[i..i + a], s[i + a], s[j..j + b], s[j + b], s[k..k + c]))
  {
    assert LooseDateAt(s, i) == Some(DateGroups(s, i, a, j, b, k, c, 1, 2));
  }

  /** Where the pieces of a date written after `pre` stand in the text. */
  lemma DatePieces(pre: string, d: DateText, tail: string)
    ensures var s := pre + d.Text() + tail;
            var i := |pre|;
            var j := i + |d.day| + 1;
            var k := j + |d.month| + 1;
            && |s| == k + |d.year| + |tail|
            && s[i..i + |d.day|] == d.day && s[i + |d.day|] == d.sep1
            && s[j..j + |d.month|] == d.month && s[j + |d.month|] == d.sep2
            && s[k..k + |d.year|] == d.year
            && (|tail| > 0 ==> s[k + |d.year|] == tail[0])
  {
    var s := pre + d.Text() + tail;
    var i := |pre|;
    var j := i + |d.day| + 1;
    var k := j + |d.month| + 1;
    assert s == pre + d.day + [d.sep1] + d.month + [d.sep2] + d.year + tail;
    assert s[i..i + |d.day|] == d.day;
    assert s[j..j + |d.month|] == d.month;
    assert s[k..k + |d.year|] == d.year;
  }

  /** A loose date written after `pre` and standing between word boundaries
      is found where it is written. */
  lemma LooseDateAfter(pre: string, d: DateText, tail: string)
    requires d.Shaped(1, 2)
    requires |pre| == 0 || !IsWordChar(pre[|pre| - 1])
    requires |tail| == 0 || !IsWordChar(tail[0])
    ensures LooseDateAt(pre + d.Text() + tail, |pre|) == Some(d)
  {
    var s := pre + d.Text() + tail;
    DatePieces(pre, d, tail);
    assert |pre| == 0 || s[|pre| - 1] == pre[|pre| - 1];
    LooseDateIs(s, |pre|, d);
  }

  /** A loose date whose pieces stand at `i`, between word boundaries, is the
      one found there. */
  lemma LooseDateIs(s: string, i: nat, d: DateText)
    requires d.Shaped(1, 2) && WordStart(s, i)
    requires var j := i + |d.day| + 1;
             var k := j + |d.month| + 1;
             && k + |d.year| <= |s|
             && s[i..i + |d.day|] == d.day && s[i + |d.day|] == d.sep1
             && s[j..j + |d.month|] == d.month && s[j + |d.month|] == d.sep2
             && s[k..k + |d.year|] == d.year
             && (k + |d.year| == |s| || !IsWordChar(s[k + |d.year|]))
    ensures LooseDateAt(s, i) == Some(d)
  {
    var j := i + |d.day| + 1;
    var k := j + |d.month| + 1;
    LooseRunsFound(s, i, |d.day|, j, |d.month|, k, |d.year|);
  }

  /** No loose date starts on a character that is not a digit. */
  lemma NoLooseDateBefore(pre: string, t: string)
    requires forall k :: 0 <= k < |pre| ==> !IsDigit(pre[k])
    ensures forall q: nat :: q < |pre| ==> LooseDateAt(pre + t, q).None?
  {
    forall q: nat | q < |pre|
      ensures LooseDateAt(pre + t, q).None?
    {
      assert (pre + t)[q] == pre[q];
    }
  }

  /** A loose date written after text with no digit, and standing between word
      boundaries, is the date that the search finds. */
  lemma LooseDateReads(pre: string, d: DateText, tail: string)
    requires d.Shaped(1, 2)
    requires forall k :: 0 <= k < |pre| ==> !IsDigit(pre[k])
    requires |pre| == 0 || !IsWordChar(pre[|pre| - 1])
    requires |tail| == 0 || !IsWordChar(tail[0])
    ensures Search(pre + d.Text() + tail, LooseDateAt) == Some(d)
  {
    var s := pre + d.Text() + tail;
    assert s == pre + (d.Text() + tail);
    LooseDateAfter(pre, d, tail);
    NoLooseDateBefore(pre, d.Text() + tail);
    SearchPast(s, LooseDateAt, |pre|);
  }

  /** A loose date is a piece of the text that starts and ends at a word
      boundary. */
  lemma LooseDateIsDelimited(s: string, i: nat)
    requires LooseDateAt(s, i).Some?
    ensures var t := LooseDateAt(s, i).value.Text();
            && WordStart(s, i) && i + |t| <= |s| && s[i..i + |t|] == t
            && (i + |t| < |s| ==> !IsWordChar(s[i + |t|]))
  {
    var a := DayMonthRun(s, i);
    var j := i + a + 1;
    var b := DayMonthRun(s, j);
    var k := j + b + 1;
    var c := YearRun(s, k);
    LooseLands(s, i, a, j, b, k, c);
    DateGroupsText(s, i, a, j, b, k, c);
    var t := LooseDateAt(s, i).value.Text();
    assert t == s[i..k + c];
    assert i + |t| == k + c;
  }

  /** `\d+(\.\d{2})?` at `j`, read as fils: all the digits, then a point and two
      more digits when present (a third decimal is left unread). */
  function AmountAt(s: string, j: nat): (r: Option<Fils>)
    ensures r.Some? <==> j < |s| && IsDigit(s[j])
  {
    var n := Span(s, j, IsDigit);
    if n == 0 then None
    else
      var e := j + n;
      var whole := DigitsValue(s[j..e]);
      if e + 2 < |s| && s[e] == '.' && IsDigit(s[e + 1]) && IsDigit(s[e + 2])
      then Some(whole * 100 + DigitsValue(s[e + 1..e + 3]))
      else Some(whole * 100)
  }

  /** An amount written with two decimals: the whole dirhams, a point, the fils. */
  function TwoDecimals(h: Fils): string
  {
    NatToString(h / 100) + "." + FixedDigits(h % 100, 2)
  }

  /** A digit run followed by a non-digit is exactly what `\d+` takes. */
  lemma SpanOfDigits(s: string, w: string)
    requires AllDigits(w) && |w| < |s| && s[..|w|] == w && !IsDigit(s[|w|])
    ensures Span(s, 0, IsDigit) == |w|
  {
  }

  /** Reading back an amount written with two decimals gives the amount, whatever
      non-digit text follows it. */
  lemma AmountRoundTrip(h: Fils, tail: string)
    requires |tail| == 0 || !IsDigit(tail[0])
    ensures AmountAt(TwoDecimals(h) + tail, 0) == Some(h)
  {
    var whole := NatToString(h / 100);
    var cents := FixedDigits(h % 100, 2);
    var s := TwoDecimals(h) + tail;
    NatToStringRoundTrip(h / 100);
    assert s == whole + "." + cents + tail;
    assert s[..|whole|] == whole;
    assert s[|whole|] == '.';
    SpanOfDigits(s, whole);
    var n := |whole|;
    assert s[0..n] == whole;
    assert s[n + 1..n + 3] == cents;
  }

  /** A greedy run is the same whatever text stands before it. */
  lemma {:induction false} SpanShift(p: string, t: string, k: nat, f: char -> bool)
    ensures Span(p + t, |p| + k, f) == Span(t, k, f)
    decreases |t| - k
  {
    if k < |t| {
      assert (p + t)[|p| + k] == t[k];
      if f(t[k]) {
        SpanShift(p, t, k + 1, f);
      }
    }
  }

  /** A whole number of dirhams followed by anything but more digits or a
      two-digit fraction reads as that many dirhams; in particular the `\d+`
      stops at a thousands comma, so `1,050.00` reads as one dirham. */
  lemma WholeAmountReads(n: nat, tail: string)
    requires |tail| == 0 || !IsDigit(tail[0])
    requires !(2 < |tail| && tail[0] == '.' && IsDigit(tail[1]) && IsDigit(tail[2]))
    ensures AmountAt(NatToString(n) + tail, 0) == Some(100 * n)
  {
    var w := NatToString(n);
    var s := w + tail;
    NatToStringRoundTrip(n);
    SpanOfRun(w, tail, IsDigit, 0);
    assert s[0..|w|] == w;
    if |w| + 2 < |s| {
      assert s[|w|..|w| + 3] == tail[..3];
    }
  }

  /** An amount is read the same whatever text stands before it. */
  lemma AmountAtShift(p: string, t: string)
    ensures AmountAt(p + t, |p|) == AmountAt(t, 0)
  {
    var s := p + t;
    SpanShift(p, t, 0, IsDigit);
    var n := Span(t, 0, IsDigit);
    if n > 0 {
      var e := |p| + n;
      assert s[|p|..e] == t[0..n];
      if n + 2 < |t| {
        assert s[e] == t[n] && s[e + 1] == t[n + 1] && s[e + 2] == t[n + 2];
        assert s[e + 1..e + 3] == t[n + 1..n + 3];
      }
    }
  }

  /** A printed amount starts with a digit. */
  lemma TwoDecimalsStart(h: Fils)
    ensures |TwoDecimals(h)| >= 1 && IsDigit(TwoDecimals(h)[0]) && !IsSpace(TwoDecimals(h)[0])
  {
    NatToStringRoundTrip(h / 100);
    assert TwoDecimals(h)[0] == NatToString(h / 100)[0];
  }

  /** `<key>\s*[:=]?\s*AED?\s*(\d+(\.\d{2})?)`, case-sensitive. `AED?` makes
      only the `D` optional: the letters `AE` are required. Every optional part
      here is decided by the next character, so no backtracking changes the
      capture. */
  function StrictAmountAt(s: string, i: nat, key: string): (r: Option<Fils>)
    ensures r.Some? ==> MatchesAt(s, i, key)
  {
    if !MatchesAt(s, i, key) then None
    else
      var j1 := SkipSpaces(s, i + |key|);
      var j2 := if j1 < |s| && (s[j1] == ':' || s[j1] == '=') then j1 + 1 else j1;
      var j3 := SkipSpaces(s, j2);
      if !MatchesAt(s, j3, "AE") then None
      else
        var j4 := if j3 + 2 < |s| && s[j3 + 2] == 'D' then j3 + 3 else j3 + 2;
        AmountAt(s, SkipSpaces(s, j4))
  }

  /** `<key>\s*(Amount)?\s*[:=]?\s*(AED\s*)?(\d+(?:\.\d{2})?)` with
      `re.IGNORECASE`; `key` is given in lower case. */
  function LabelledAmountAt(s: string, i: nat, key: string): (r: Option<Fils>)
    ensures r.Some? ==> MatchesAtIgnoreCase(s, i, key)
  {
    if !MatchesAtIgnoreCase(s, i, key) then None
    else
      var j1 := SkipSpaces(s, i + |key|);
      var j2 := if MatchesAtIgnoreCase(s, j1, "amount") then SkipSpaces(s, j1 + 6) else j1;
      var j3 := if j2 < |s| && (s[j2] == ':' || s[j2] == '=') then j2 + 1 else j2;
      var j4 := SkipSpaces(s, j3);
      var j5 := if MatchesAtIgnoreCase(s, j4, "aed") then SkipSpaces(s, j4 + 3) else j4;
      AmountAt(s, j5)
  }

  /** Where each step of `StrictAmountAt` lands on `<key>: AED <t>`. */
  lemma StrictPrefixSteps(s: string, key: string, t: string)
    requires s == key + ": AED " + t && |t| > 0 && !IsSpace(t[0])
    ensures MatchesAt(s, 0, key) && s[|key|] == ':' && MatchesAt(s, |key| + 2, "AE") && s[|key| + 4] == 'D'
    ensures SkipSpaces(s, |key|) == |key| && SkipSpaces(s, |key| + 1) == |key| + 2
    ensures SkipSpaces(s, |key| + 5) == |key| + 6
  {
    var n := |key|;
    assert s[..n] == key;
    assert s[n] == ':' && s[n + 1] == ' ' && s[n + 2] == 'A' && s[n + 3] == 'E' && s[n + 4] == 'D';
    assert s[n + 5] == ' ' && s[n + 6] == t[0];
    assert s[n + 2..n + 4] == "AE";
  }

  /** On `<key>: AED <t>` what is read is the amount that `t` starts with. */
  lemma StrictLands(s: string, key: string, t: string)
    requires s == key + ": AED " + t && |t| > 0 && !IsSpace(t[0])
    ensures StrictAmountAt(s, 0, key) == AmountAt(s, |key| + 6)
  {
    StrictPrefixSteps(s, key, t);
  }

  /** `VAT: AED 52.50` and `Total: AED 1050.00`, followed by a non-digit, read
      back as the amount written. */
  lemma StrictAmountReads(key: string, h: Fils, tail: string)
    requires |tail| == 0 || !IsDigit(tail[0])
    ensures StrictAmountAt(key + ": AED " + TwoDecimals(h) + tail, 0, key) == Some(h)
  {
    var pre := key + ": AED ";
    var t := TwoDecimals(h) + tail;
    var s := pre + t;
    assert key + ": AED " + TwoDecimals(h) + tail == s;
    TwoDecimalsStart(h);
    StrictLands(s, key, t);
    AmountAtShift(pre, t);
    AmountRoundTrip(h, tail);
  }

  /** Without the letters `AE` the strict pattern finds nothing: `VAT: 50.00`
      gives no amount. */
  lemma StrictAmountNeedsAE(key: string, t: string)
    requires |t| > 0 && IsDigit(t[0])
    ensures StrictAmountAt(key + ": " + t, 0, key) == None
  {
    var s := key + ": " + t;
    var n := |key|;
    assert s[..n] == key;
    assert s[n] == ':' && s[n + 1] == ' ' && s[n + 2] == t[0];
    assert SkipSpaces(s, n) == n;
    assert SkipSpaces(s, n + 1) == n + 2;
    assert !MatchesAt(s, n + 2, "AE");
  }

  /** How the optional parts of `LabelledAmountAt` are skipped over
      ` Amount: AED ` written at `n`. */
  lemma AmountWordSteps(s: string, n: nat)
    requires n + 13 < |s| && !IsSpace(s[n + 13])
    requires s[n] == ' ' && s[n + 1] == 'A' && s[n + 2] == 'm' && s[n + 3] == 'o'
    requires s[n + 4] == 'u' && s[n + 5] == 'n' && s[n + 6] == 't' && s[n + 7] == ':'
    requires s[n + 8] == ' ' && s[n + 9] == 'A' && s[n + 10] == 'E' && s[n + 11] == 'D' && s[n + 12] == ' '
    ensures SkipSpaces(s, n) == n + 1
    ensures MatchesAtIgnoreCase(s, n + 1, "amount") && SkipSpaces(s, n + 7) == n + 7
    ensures SkipSpaces(s, n + 8) == n + 9
    ensures MatchesAtIgnoreCase(s, n + 9, "aed") && SkipSpaces(s, n + 12) == n + 13
  {
  }

  /** The characters of ` Amount: AED ` written after a label. */
  lemma AmountWordSpelled(s: string, shown: string, t: string)
    requires s == shown + " Amount: AED " + t && |t| > 0
    ensures |s| > |shown| + 13 && s[|shown| + 13] == t[0]
    ensures s[|shown|] == ' ' && s[|shown| + 1] == 'A' && s[|shown| + 2] == 'm' && s[|shown| + 3] == 'o'
    ensures s[|shown| + 4] == 'u' && s[|shown| + 5] == 'n' && s[|shown| + 6] == 't' && s[|shown| + 7] == ':'
    ensures s[|shown| + 8] == ' ' && s[|shown| + 9] == 'A' && s[|shown| + 10] == 'E' && s[|shown| + 11] == 'D'
    ensures s[|shown| + 12] == ' '
  {
    var u := " Amount: AED " + t;
    assert s == shown + u;
    assert forall c :: 0 <= c < |u| ==> s[|shown| + c] == u[c];
    assert u[13] == t[0];
  }

  /** Where each step of `LabelledAmountAt` lands on `<label> Amount: AED <t>`. */
  lemma LabelledPrefixSteps(s: string, shown: string, key: string, t: string)
    requires s == shown + " Amount: AED " + t && |t| > 0 && !IsSpace(t[0])
    requires |shown| == |key| && forall k :: 0 <= k < |key| ==> LowerChar(shown[k]) == key[k]
    ensures MatchesAtIgnoreCase(s, 0, key) && SkipSpaces(s, |key|) == |key| + 1
    ensures MatchesAtIgnoreCase(s, |key| + 1, "amount") && SkipSpaces(s, |key| + 7) == |key| + 7
    ensures s[|key| + 7] == ':' && SkipSpaces(s, |key| + 8) == |key| + 9
    ensures MatchesAtIgnoreCase(s, |key| + 9, "aed") && SkipSpaces(s, |key| + 12) == |key| + 13
  {
    assert forall k :: 0 <= k < |key| ==> s[k] == shown[k];
    AmountWordSpelled(s, shown, t);
    AmountWordSteps(s, |shown|);
  }

  /** On `<label> Amount: AED <t>` what is read is the amount that `t` starts with. */
  lemma LabelledLands(s: string, shown: string, key: string, t: string)
    requires s == shown + " Amount: AED " + t && |t| > 0 && !IsSpace(t[0])
    requires |shown| == |key| && forall k :: 0 <= k < |key| ==> LowerChar(shown[k]) == key[k]
    ensures LabelledAmountAt(s, 0, key) == AmountAt(s, |key| + 13)
  {
    LabelledPrefixSteps(s, shown, key, t);
  }

  /** `Total Amount: AED 1050.00`, with the label in any letter case and
      followed by a non-digit, reads back as the amount written. */
  lemma LabelledAmountReads(shown: string, key: string, h: Fils, tail: string)
    requires |shown| == |key| && forall k :: 0 <= k < |key| ==> LowerChar(shown[k]) == key[k]
    requires |tail| == 0 || !IsDigit(tail[0])
    ensures LabelledAmountAt(shown + " Amount: AED " + TwoDecimals(h) + tail, 0, key) == Some(h)
  {
    var pre := shown + " Amount: AED ";
    var t := TwoDecimals(h) + tail;
    var s := pre + t;
    assert shown + " Amount: AED " + TwoDecimals(h) + tail == s;
    TwoDecimalsStart(h);
    LabelledLands(s, shown, key, t);
    AmountAtShift(pre, t);
    AmountRoundTrip(h, tail);
  }

  /** A pattern that matches at the very start is what `re.search` returns. */
  lemma SearchAtStart<T>(s: string, at: (string, nat) -> Option<T>)
    requires at(s, 0).Some?
    ensures Search(s, at) == at(s, 0)
  {
  }

  /** A pattern that matches at `p` and nowhere before is what `re.search`
      returns. */
  lemma SearchPast<T>(s: string, at: (string, nat) -> Option<T>, p: nat)
    requires p <= |s| && at(s, p).Some?
    requires forall q: nat :: q < p ==> at(s, q).None?
    ensures Search(s, at) == at(s, p)
  {
    assert at(s, p).Some?;
    assert Search(s, at).Some?;
    var p': nat :| p' <= |s| && at(s, p') == Search(s, at) && forall q: nat :: q < p' ==> at(s, q).None?;
  }

  /** `(Invoice\s*No[:\-]?\s*\w+)` with `re.IGNORECASE`: the whole match. */
  function InvoiceNoAt(s: string, i: nat): (r: Option<string>)
    ensures r.Some? ==> MatchesAtIgnoreCase(s, i, "invoice")
    ensures r.Some? ==> |r.value| >= 1 && i + |r.value| <= |s| && s[i..i + |r.value|] == r.value
    ensures r.Some? ==> IsWordChar(r.value[|r.value| - 1])
    ensures r.Some? ==> i + |r.value| == |s| || !IsWordChar(s[i + |r.value|])
  {
    if !MatchesAtIgnoreCase(s, i, "invoice") then None
    else
      var j := SkipSpaces(s, i + 7);
      if !MatchesAtIgnoreCase(s, j, "no") then None
      else
        var k := if j + 2 < |s| && (s[j + 2] == ':' || s[j + 2] == '-') then j + 3 else j + 2;
        var m := SkipSpaces(s, k);
        var w := Span(s, m, IsWordChar);
        if w == 0 then None else Some(s[i..m + w])
  }

  /** The leftmost invoice-number match ends in a word character, so not in
      whitespace. */
  lemma InvoiceNoFound(s: string, t: string)
    requires Search(s, InvoiceNoAt) == Some(t)
    ensures |t| >= 1 && IsWordChar(t[|t| - 1]) && !IsSpace(t[|t| - 1])
  {
    var p: nat :| p <= |s| && InvoiceNoAt(s, p) == Some(t);
    WordCharNotSpace(t[|t| - 1]);
  }

  /** Where each step of `InvoiceNoAt` lands on `Invoice No: <t>`. */
  lemma InvoiceNoSteps(s: string, t: string)
    requires s == "Invoice No: " + t && |t| > 0 && !IsSpace(t[0])
    ensures MatchesAtIgnoreCase(s, 0, "invoice") && SkipSpaces(s, 7) == 8
    ensures MatchesAtIgnoreCase(s, 8, "no") && s[10] == ':' && SkipSpaces(s, 11) == 12
  {
    assert s[7] == ' ' && s[8] == 'N' && s[9] == 'o' && s[10] == ':' && s[11] == ' ' && s[12] == t[0];
  }

  /** On `Invoice No: <t>` the match runs over the word that `t` starts with. */
  lemma InvoiceNoLands(s: string, t: string)
    requires s == "Invoice No: " + t && |t| > 0 && !IsSpace(t[0])
    ensures var w := Span(s, 12, IsWordChar);
            InvoiceNoAt(s, 0) == if w == 0 then None else Some(s[0..12 + w])
  {
    InvoiceNoSteps(s, t);
  }

  /** `Invoice No: <w>`, with `w` a word that the text does not continue, is
      matched up to the end of `w`. */
  lemma InvoiceNoReads(w: string, tail: string)
    requires |w| > 0 && forall k :: 0 <= k < |w| ==> IsWordChar(w[k])
    requires |tail| == 0 || !IsWordChar(tail[0])
    ensures InvoiceNoAt("Invoice No: " + w + tail, 0) == Some("Invoice No: " + w)
  {
    var pre := "Invoice No: ";
    var t := w + tail;
    var s := pre + t;
    assert "Invoice No: " + w + tail == s;
    assert t[0] == w[0];
    WordCharNotSpace(w[0]);
    InvoiceNoLands(s, t);
    SpanShift(pre, t, 0, IsWordChar);
    SpanOfRun(w, tail, IsWordChar, 0);
    assert s[0..12 + |w|] == pre + w;
  }

  /** The class `[A-Za-z0-9\s,&]`. */
  predicate IsPartyChar(c: char)
  {
    IsLetter(c) || IsDigit(c) || IsSpace(c) || c == ',' || c == '&'
  }

  /** The greedy run of class characters starting at `m`. */
  function PartyRun(s: string, m: nat): (r: string)
    requires m < |s| && IsPartyChar(s[m])
    ensures |r| >= 1 && forall k :: 0 <= k < |r| ==> IsPartyChar(r[k])
    ensures m + |r| <= |s| && r == s[m..m + |r|]
    ensures m + |r| == |s| || !IsPartyChar(s[m + |r|])
  {
    s[m..m + Span(s, m, IsPartyChar)]
  }

  /** `<key>\s*[:\-]?\s*([A-Za-z0-9\s,&]+)` with `re.IGNORECASE`: the captured
      group. The group is greedy from the first non-space character after the
      optional colon or dash; when no class character comes there, the engine
      gives back one of the spaces matched before and the group is that single
      space. */
  function PartyAt(s: string, i: nat, key: string): (r: Option<string>)
    ensures r.Some? ==> |r.value| >= 1 && forall k :: 0 <= k < |r.value| ==> IsPartyChar(r.value[k])
    ensures var j := i + |key|;
            r.Some? <==> && MatchesAtIgnoreCase(s, i, key) && j < |s|
                         && (|| IsPartyChar(s[j])
                             || ((s[j] == ':' || s[j] == '-') && j + 1 < |s| && IsPartyChar(s[j + 1])))
  {
    if !MatchesAtIgnoreCase(s, i, key) then None
    else
      var j := i + |key|;
      var k := SkipSpaces(s, j);
      if k < |s| && (s[k] == ':' || s[k] == '-') then
        var m := SkipSpaces(s, k + 1);
        if m < |s| && IsPartyChar(s[m]) then Some(PartyRun(s, m))
        else if m > k + 1 then Some([s[m - 1]])
        else if k > j then Some([s[k - 1]])
        else None
      else if k < |s| && IsPartyChar(s[k]) then Some(PartyRun(s, k))
      else if k > j then Some([s[k - 1]])
      else None
  }

  /** Where each step of `PartyAt` lands on `<label>: <t>`. */
  lemma PartySteps(s: string, shown: string, key: string, t: string)
    requires s == shown + ": " + t && |t| > 0 && !IsSpace(t[0])
    requires |shown| == |key| && forall k :: 0 <= k < |key| ==> LowerChar(shown[k]) == key[k]
    ensures MatchesAtIgnoreCase(s, 0, key) && SkipSpaces(s, |key|) == |key|
    ensures s[|key|] == ':' && SkipSpaces(s, |key| + 1) == |key| + 2 && s[|key| + 2] == t[0]
  {
    var n := |key|;
    assert forall k :: 0 <= k < n ==> s[k] == shown[k];
    assert s[n] == ':' && s[n + 1] == ' ' && s[n + 2] == t[0];
  }

  /** `Supplier: <v>`, with the label in any letter case and `v` a run of the
      class that starts with a non-space character and that the text does not
      continue, reads back as `v`. */
  lemma PartyReads(shown: string, key: string, v: string, tail: string)
    requires |shown| == |key| && forall k :: 0 <= k < |key| ==> LowerChar(shown[k]) == key[k]
    requires |v| > 0 && !IsSpace(v[0]) && forall k :: 0 <= k < |v| ==> IsPartyChar(v[k])
    requires |tail| == 0 || !IsPartyChar(tail[0])
    ensures PartyAt(shown + ": " + v + tail, 0, key) == Some(v)
  {
    var pre := shown + ": ";
    var t := v + tail;
    var s := pre + t;
    assert shown + ": " + v + tail == s;
    assert t[0] == v[0];
    PartySteps(s, shown, key, t);
    SpanShift(pre, t, 0, IsPartyChar);
    SpanOfRun(v, tail, IsPartyChar, 0);
    assert s[|pre|..|pre| + |v|] == v;
  }
}
