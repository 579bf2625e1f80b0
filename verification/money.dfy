/** Money amounts. The validators read amounts written with at most two
    decimals, so an amount is kept exactly as a whole number of fils
    (hundredths of a dirham) instead of a binary float. */
module Money {
  import opened Wrappers
  import opened Text

  /** An amount in fils: 1 AED = 100 fils. */
  type Fils = nat

  function Abs(x: int): nat
  {
    if x < 0 then -x else x
  }

  /** `round(total * 0.05, 2)` in fils: the whole number of fils nearest to
      5% of `total`, ties going to the even neighbour as Python's `round` does
      on an exact value. */
  function FivePercent(total: Fils): (r: Fils)
    ensures Abs(20 * r - total) <= 10
    ensures Abs(20 * r - total) == 10 ==> r % 2 == 0
  {
    var q := total / 20;
    var rem := total % 20;
    if rem < 10 then q
    else if rem > 10 then q + 1
    else if q % 2 == 0 then q
    else q + 1
  }

  /** No other whole number of fils meets that description. */
  lemma FivePercentUnique(total: Fils, r: Fils)
    requires Abs(20 * r - total) <= 10
    requires Abs(20 * r - total) == 10 ==> r % 2 == 0
    ensures r == FivePercent(total)
  {
  }

  /** Python's `repr` of the float `h / 100`: the whole part, a point, and the
      shortest one- or two-digit fraction (`50.0`, `50.5`, `50.05`). */
  function AmountRepr(h: Fils): string
  {
    var cents := h % 100;
    NatToString(h / 100) + "."
    + if cents % 10 == 0 then [DigitChar(cents / 10)]
      else [DigitChar(cents / 10), DigitChar(cents % 10)]
  }

  /** The text after a leading `+` or `-`, if there is one. */
  function Unsigned(s: string): (b: string)
    ensures |s| > 0 && (s[0] == '-' || s[0] == '+') ==> b == s[1..]
    ensures !(|s| > 0 && (s[0] == '-' || s[0] == '+')) ==> b == s
  {
    if |s| > 0 && (s[0] == '-' || s[0] == '+') then s[1..] else s
  }

  /** The plain decimal literals: after an optional sign, only digits and
      points, at most one point, and at least one digit. */
  predicate IsDecimalLiteral(s: string)
  {
    var b := Unsigned(s);
    && (forall k :: 0 <= k < |b| ==> IsDigit(b[k]) || b[k] == '.')
    && (forall k, j :: 0 <= k < j < |b| && b[k] == '.' ==> b[j] != '.')
    && (exists k :: 0 <= k < |b| && IsDigit(b[k]))
  }

  /** An exact decimal number `mantissa / 10^scale`. */
  datatype Decimal = Decimal(mantissa: int, scale: nat)

  /** `float(s)` restricted to plain decimal literals: an optional sign, then
      digits with at most one decimal point and at least one digit. `None`
      where Python raises `ValueError`. */
  function ParseDecimal(s: string): (r: Option<Decimal>)
    ensures r.Some? && r.value.mantissa < 0 ==> |s| > 0 && s[0] == '-'
  {
    if |s| == 0 then None
    else
      var negative := s[0] == '-';
      var body := Unsigned(s);
      var parts := Split(body, '.');
      if |parts| > 2 || !AllDigits(parts[0]) then None
      else
        var frac := if |parts| == 2 then parts[1] else "";
        if !AllDigits(frac) || |parts[0]| + |frac| == 0 then None
        else
          var magnitude: int := DigitsValue(parts[0] + frac);
          Some(Decimal(if negative then -magnitude else magnitude, |frac|))
  }

  /** `float(str(i)) == i` for every integer. */
  lemma IntParses(i: int)
    ensures ParseDecimal(IntToString(i)) == Some(Decimal(i, 0))
  {
    var n := if i < 0 then -i else i;
    var digits := NatToString(n);
    NatToStringRoundTrip(n);
    SplitPrefix(digits, "", '.');
    assert digits + "" == digits;
    if i < 0 {
      assert IntToString(i)[1..] == digits;
    }
  }

  /** A point between two digit groups reads as the number they spell, scaled
      by the length of the fraction. */
  lemma PointedParses(whole: string, frac: string)
    requires |whole| >= 1 && AllDigits(whole) && AllDigits(frac)
    ensures ParseDecimal(whole + "." + frac) == Some(Decimal(DigitsValue(whole + frac), |frac|))
  {
    var s := whole + "." + frac;
    assert s[0] == whole[0];
    assert Unsigned(s) == s;
    SplitPrefix(whole, frac, '.');
    SplitPrefix(frac, "", '.');
    assert Split(s, '.') == [whole, frac];
  }

  /** `float(repr(x)) == x` for an amount `x` of whole fils: the text in the VAT
      mismatch message reads back as the amount it reports. */
  lemma AmountReprParses(h: Fils)
    ensures ParseDecimal(AmountRepr(h)).Some?
    ensures var d := ParseDecimal(AmountRepr(h)).value;
            d.mantissa * 100 == h * Pow10(d.scale)
  {
    var w := h / 100;
    var cents := h % 100;
    var t := cents / 10;
    var u := cents % 10;
    assert h == 100 * w + 10 * t + u;
    var whole := NatToString(w);
    var frac := if u == 0 then [DigitChar(t)] else [DigitChar(t), DigitChar(u)];
    NatToStringRoundTrip(w);
    assert AmountRepr(h) == whole + "." + frac;
    PointedParses(whole, frac);
    DigitsValueSnoc(whole, DigitChar(t));
    assert Pow10(1) == 10 && Pow10(2) == 100;
    var d := ParseDecimal(AmountRepr(h)).value;
    if u == 0 {
      assert whole + frac == whole + [DigitChar(t)];
      assert d == Decimal(10 * w + t, 1);
      assert d.mantissa * 100 == h * 10;
    } else {
      DigitsValueSnoc(whole + [DigitChar(t)], DigitChar(u));
      assert whole + frac == whole + [DigitChar(t)] + [DigitChar(u)];
      assert d == Decimal(100 * w + 10 * t + u, 2);
      assert d.mantissa * 100 == h * 100;
    }
  }

  /** `float(s)` succeeds on exactly the plain decimal literals. */
  lemma ParseDecimalAccepts(s: string)
    ensures ParseDecimal(s).Some? <==> IsDecimalLiteral(s)
  {
    var b := Unsigned(s);
    var n := Span(b, 0, NotPoint);
    if n == |b| {
      assert '.' !in b;
      SplitPrefix(b, "", '.');
      NoPointLiteral(b);
    } else {
      assert b[n] == '.';
      SplitAtFirst(b, '.', n);
      var rest := b[n + 1..];
      if '.' in rest {
        var m :| 0 <= m < |rest| && rest[m] == '.';
        SplitAtFirst(rest, '.', Span(rest, 0, NotPoint));
        assert b[n + 1 + m] == '.';
      } else {
        SplitPrefix(rest, "", '.');
        OnePointLiteral(b, n);
      }
    }
    if |s| == 0 {
      assert b == "";
    }
  }

  predicate NotPoint(c: char)
  {
    c != '.'
  }

  /** Splitting at the first separator. */
  lemma SplitAtFirst(c: string, sep: char, q: nat)
    requires q < |c| && c[q] == sep && sep !in c[..q]
    ensures Split(c, sep) == [c[..q]] + Split(c[q + 1..], sep)
  {
    assert c == c[..q] + [sep] + c[q + 1..];
    SplitPrefix(c[..q], c[q + 1..], sep);
  }

  /** Without a point, a literal is a non-empty run of digits. */
  lemma NoPointLiteral(b: string)
    requires '.' !in b
    ensures (&& (forall k :: 0 <= k < |b| ==> IsDigit(b[k]) || b[k] == '.')
             && (forall k, j :: 0 <= k < j < |b| && b[k] == '.' ==> b[j] != '.')
             && (exists k :: 0 <= k < |b| && IsDigit(b[k])))
            <==> |b| > 0 && AllDigits(b)
  {
    if |b| > 0 && AllDigits(b) {
      assert IsDigit(b[0]);
    }
  }

  /** With one point at `n`, a literal is two digit runs that are not both
      empty. */
  lemma OnePointLiteral(b: string, n: nat)
    requires n < |b| && b[n] == '.' && '.' !in b[..n] && '.' !in b[n + 1..]
    ensures (&& (forall k :: 0 <= k < |b| ==> IsDigit(b[k]) || b[k] == '.')
             && (forall k, j :: 0 <= k < j < |b| && b[k] == '.' ==> b[j] != '.')
             && (exists k :: 0 <= k < |b| && IsDigit(b[k])))
            <==> AllDigits(b[..n]) && AllDigits(b[n + 1..]) && n + |b[n + 1..]| > 0
  {
    var x := b[..n];
    var y := b[n + 1..];
    assert forall k :: 0 <= k < n ==> b[k] == x[k];
    assert forall k :: n < k < |b| ==> b[k] == y[k - n - 1];
    if AllDigits(x) && AllDigits(y) && n + |y| > 0 {
      if n > 0 {
        assert IsDigit(b[0]);
      } else {
        assert IsDigit(b[n + 1]);
      }
    }
  }
}
