/** Characters and strings as Python's `str` treats them in this program:
    whitespace as `str.isspace` (and the regex class `\s`), ASCII digits and
    word characters, ASCII lower-casing, `in`, `join`, `split`, `strip`. */
module Text {

  /** `str.isspace()`, which is also what the regex class `\s` matches. */
  predicate IsSpace(c: char)
  {
    || '\t' <= c <= '\r'
    || '\U{1C}' <= c <= '\U{1F}'
    || c == ' '
    || c == '\U{85}'
    || c == '\U{A0}'
    || c == '\U{1680}'
    || '\U{2000}' <= c <= '\U{200A}'
    || c == '\U{2028}'
    || c == '\U{2029}'
    || c == '\U{202F}'
    || c == '\U{205F}'
    || c == '\U{3000}'
  }

  predicate IsDigit(c: char)
  {
    '0' <= c <= '9'
  }

  predicate IsLetter(c: char)
  {
    'a' <= c <= 'z' || 'A' <= c <= 'Z'
  }

  /** The regex class `\w` (ASCII part). */
  predicate IsWordChar(c: char)
  {
    IsLetter(c) || IsDigit(c) || c == '_'
  }

  /** A word character is never whitespace. */
  lemma WordCharNotSpace(c: char)
    ensures IsWordChar(c) ==> !IsSpace(c)
  {
  }

  function LowerChar(c: char): char
  {
    if 'A' <= c <= 'Z' then (c as int - 'A' as int + 'a' as int) as char else c
  }

  /** `s.lower()` (ASCII letters): no upper-case letter is left, and every
      other character is kept where it was. */
  function Lower(s: string): (r: string)
    ensures |r| == |s|
    ensures forall k :: 0 <= k < |r| ==> !('A' <= r[k] <= 'Z')
    ensures forall k :: 0 <= k < |s| ==> !('A' <= s[k] <= 'Z') ==> r[k] == s[k]
    ensures forall k :: 0 <= k < |s| ==> 'A' <= s[k] <= 'Z' ==> 'a' <= r[k] <= 'z' && r[k] as int - s[k] as int == 32
  {
    seq(|s|, k requires 0 <= k < |s| => LowerChar(s[k]))
  }

  /** Lower-casing twice changes nothing more. */
  lemma LowerIdempotent(s: string)
    ensures Lower(Lower(s)) == Lower(s)
  {
  }

  predicate AllDigits(s: string)
  {
    forall k :: 0 <= k < |s| ==> IsDigit(s[k])
  }

  /** A digit string holds no non-digit character. */
  lemma DigitsExclude(s: string, c: char)
    requires AllDigits(s) && !IsDigit(c)
    ensures c !in s
  {
  }

  function DigitValue(c: char): nat
    requires IsDigit(c)
  {
    c as int - '0' as int
  }

  function DigitChar(d: nat): (c: char)
    requires d < 10
    ensures IsDigit(c) && DigitValue(c) == d
  {
    ('0' as int + d) as char
  }

  /** `int(s)` for a string of ASCII digits (the empty string reads as 0). */
  function DigitsValue(s: string): nat
    requires AllDigits(s)
  {
    if |s| == 0 then 0 else DigitsValue(s[..|s| - 1]) * 10 + DigitValue(s[|s| - 1])
  }

  /** `str(n)` for a natural number. */
  function NatToString(n: nat): string
  {
    if n < 10 then [DigitChar(n)] else NatToString(n / 10) + [DigitChar(n % 10)]
  }

  function Pow10(n: nat): (p: nat)
    ensures p >= 1
  {
    if n == 0 then 1 else 10 * Pow10(n - 1)
  }

  /** Appending a digit shifts the value one decimal place. */
  lemma DigitsValueSnoc(s: string, c: char)
    requires AllDigits(s) && IsDigit(c)
    ensures AllDigits(s + [c]) && DigitsValue(s + [c]) == DigitsValue(s) * 10 + DigitValue(c)
  {
    assert (s + [c])[..|s|] == s;
  }

  /** A string of `n` digits is worth less than `10^n`. */
  lemma {:induction false} DigitsValueBound(s: string)
    requires AllDigits(s)
    ensures DigitsValue(s) < Pow10(|s|)
  {
    if |s| > 0 {
      DigitsValueBound(s[..|s| - 1]);
    }
  }

  /** `n` written with exactly `width` digits, zero-padded on the left (the
      `%02d` / `%04d` style used by `strftime`). Reading it back gives `n`
      whenever `n` fits in `width` digits. */
  function FixedDigits(n: nat, width: nat): (s: string)
    ensures |s| == width && AllDigits(s)
    ensures n < Pow10(width) ==> DigitsValue(s) == n
  {
    if width == 0 then ""
    else
      var s := FixedDigits(n / 10, width - 1) + [DigitChar(n % 10)];
      assert s[..|s| - 1] == FixedDigits(n / 10, width - 1);
      s
  }

  /** `int(str(n)) == n`, and `str(n)` has no leading zero. */
  lemma {:induction false} NatToStringRoundTrip(n: nat)
    ensures AllDigits(NatToString(n)) && |NatToString(n)| >= 1
    ensures DigitsValue(NatToString(n)) == n
    ensures NatToString(n)[0] == '0' ==> n == 0
  {
    if n >= 10 {
      NatToStringRoundTrip(n / 10);
      var s := NatToString(n);
      assert s[..|s| - 1] == NatToString(n / 10);
    }
  }

  lemma {:induction false} Pow10Monotone(a: nat, b: nat)
    requires a <= b
    ensures Pow10(a) <= Pow10(b)
  {
    if a < b {
      Pow10Monotone(a, b - 1);
    }
  }

  /** `str(n)` has `w` digits exactly when `10^(w-1) <= n < 10^w` (for one
      digit, when `n < 10`). */
  lemma {:induction false} NatToStringLength(n: nat, w: nat)
    requires w >= 1
    ensures |NatToString(n)| == w <==> (w == 1 || Pow10(w - 1) <= n) && n < Pow10(w)
  {
    NatToStringBounds(n);
    var len := |NatToString(n)|;
    if len < w {
      Pow10Monotone(len, w - 1);
    } else if len > w {
      Pow10Monotone(w, len - 1);
    }
  }

  lemma {:induction false} NatToStringBounds(n: nat)
    ensures |NatToString(n)| >= 1
    ensures n < Pow10(|NatToString(n)|)
    ensures |NatToString(n)| >= 2 ==> Pow10(|NatToString(n)| - 1) <= n
  {
    if n >= 10 {
      NatToStringBounds(n / 10);
      var len := |NatToString(n / 10)|;
      assert |NatToString(n)| == len + 1;
      assert n / 10 < Pow10(len);
      assert n < 10 * Pow10(len);
      if len >= 2 {
        assert Pow10(len - 1) <= n / 10;
        assert Pow10(len) == 10 * Pow10(len - 1);
      } else {
        assert Pow10(1) == 10;
      }
    }
  }

  /** `str(i)` for any integer: a minus sign before the magnitude. */
  function IntToString(i: int): string
  {
    if i < 0 then "-" + NatToString(-i) else NatToString(i)
  }

  /** The pattern `pat` occurs in `s` starting at index `i`. */
  predicate MatchesAt(s: string, i: nat, pat: string)
  {
    i + |pat| <= |s| && s[i..i + |pat|] == pat
  }

  /** Case-insensitive `MatchesAt` for a lower-case pattern (`re.IGNORECASE`). */
  predicate MatchesAtIgnoreCase(s: string, i: nat, pat: string)
  {
    i + |pat| <= |s| && forall k :: 0 <= k < |pat| ==> LowerChar(s[i + k]) == pat[k]
  }

  /** Python's `pat in s`. */
  predicate Contains(s: string, pat: string)
  {
    exists i: nat :: i <= |s| && MatchesAt(s, i, pat)
  }

  /** Python's `pat in s.lower()` for a lower-case pattern. */
  predicate ContainsIgnoreCase(s: string, pat: string)
  {
    Contains(Lower(s), pat)
  }

  /** Length of the longest run of characters satisfying `p` that starts at `i`
      (a greedy `p*` in a regex). */
  function Span(s: string, i: nat, p: char -> bool): (n: nat)
    ensures i >= |s| ==> n == 0
    ensures i + n <= |s| || n == 0
    ensures forall k :: i <= k < i + n ==> k < |s| && p(s[k])
    ensures i + n < |s| ==> !p(s[i + n])
    decreases |s| - i
  {
    if i >= |s| || !p(s[i]) then 0 else 1 + Span(s, i + 1, p)
  }

  /** A run of `p` characters followed by the end or by a character outside
      `p` is exactly what the greedy run takes. */
  lemma {:induction false} SpanOfRun(w: string, tail: string, p: char -> bool, k: nat)
    requires k <= |w| && (forall c :: 0 <= c < |w| ==> p(w[c]))
    requires |tail| == 0 || !p(tail[0])
    ensures Span(w + tail, k, p) == |w| - k
    decreases |w| - k
  {
    if k < |w| {
      assert (w + tail)[k] == w[k];
      SpanOfRun(w, tail, p, k + 1);
    } else if |tail| > 0 {
      assert (w + tail)[k] == tail[0];
    }
  }

  /** Index after a greedy `\s*` starting at `i`. */
  function SkipSpaces(s: string, i: nat): (j: nat)
    requires i <= |s|
    ensures i <= j <= |s|
    ensures forall k :: i <= k < j ==> IsSpace(s[k])
    ensures j == |s| || !IsSpace(s[j])
  {
    i + Span(s, i, IsSpace)
  }

  /** `sep.join(parts)` */
  function Join(parts: seq<string>, sep: string): string
  {
    if |parts| == 0 then ""
    else if |parts| == 1 then parts[0]
    else parts[0] + sep + Join(parts[1..], sep)
  }

  /** A join starts with the first character of its first part. */
  lemma JoinHead(parts: seq<string>, sep: string)
    requires |parts| > 0 && |parts[0]| > 0
    ensures |Join(parts, sep)| > 0 && Join(parts, sep)[0] == parts[0][0]
  {
  }

  /** A join begins with its first part. */
  lemma JoinPrefix(parts: seq<string>, sep: string)
    requires |parts| > 0
    ensures |Join(parts, sep)| >= |parts[0]| && Join(parts, sep)[..|parts[0]|] == parts[0]
  {
  }

  /** `s.split(sep)` for a one-character separator: the pieces between
      separators, always at least one. */
  function Split(s: string, sep: char): (parts: seq<string>)
    ensures |parts| >= 1
    ensures forall k, j :: 0 <= k < |parts| && 0 <= j < |parts[k]| ==> parts[k][j] != sep
  {
    if |s| == 0 then [""]
    else
      var rest := Split(s[1..], sep);
      if s[0] == sep then [""] + rest
      else [[s[0]] + rest[0]] + rest[1..]
  }

  /** Splitting a separator-free prefix off. */
  lemma {:induction false} SplitPrefix(a: string, b: string, sep: char)
    requires sep !in a
    ensures Split(a + [sep] + b, sep) == [a] + Split(b, sep)
    ensures Split(a, sep) == [a]
  {
    if |a| == 0 {
      assert a + [sep] + b == [sep] + b;
      assert ([sep] + b)[1..] == b;
    } else {
      SplitPrefix(a[1..], b, sep);
      assert (a + [sep] + b)[1..] == a[1..] + [sep] + b;
      assert [a[0]] + a[1..] == a;
    }
  }

  /** `sep.join` and `split(sep)` are inverse when no piece holds the separator. */
  lemma {:induction false} SplitJoin(parts: seq<string>, sep: char)
    requires |parts| >= 1
    requires forall k :: 0 <= k < |parts| ==> sep !in parts[k]
    ensures Split(Join(parts, [sep]), sep) == parts
  {
    if |parts| == 1 {
      SplitPrefix(parts[0], "", sep);
    } else {
      SplitJoin(parts[1..], sep);
      SplitPrefix(parts[0], Join(parts[1..], [sep]), sep);
    }
  }

  /** The last piece of a split is whatever follows the last separator. */
  lemma {:induction false} SplitLast(a: string, b: string, sep: char)
    requires sep !in b
    ensures var parts := Split(a + [sep] + b, sep);
            |parts| >= 2 && parts[|parts| - 1] == b
  {
    var s := a + [sep] + b;
    if |a| == 0 {
      assert s == [sep] + b;
      assert s[1..] == b;
      SplitPrefix(b, "", sep);
      assert Split(s, sep) == [""] + [b];
    } else {
      SplitLast(a[1..], b, sep);
      assert s[1..] == a[1..] + [sep] + b;
      var rest := Split(s[1..], sep);
      var parts := Split(s, sep);
      assert parts == (if s[0] == sep then [""] + rest else [[s[0]] + rest[0]] + rest[1..]);
      assert |parts| == |rest| + (if s[0] == sep then 1 else 0);
      assert parts[|parts| - 1] == rest[|rest| - 1];
    }
  }

  function TrimEnd(s: string): (r: string)
    ensures |r| <= |s| && r == s[..|r|]
    ensures forall k :: |r| <= k < |s| ==> IsSpace(s[k])
    ensures |r| == 0 || !IsSpace(r[|r| - 1])
  {
    if |s| > 0 && IsSpace(s[|s| - 1]) then TrimEnd(s[..|s| - 1]) else s
  }

  /** `s.strip()`: drops leading and trailing whitespace and nothing else. */
  function Strip(s: string): (r: string)
    ensures |r| == 0 || (!IsSpace(r[0]) && !IsSpace(r[|r| - 1]))
    ensures var a := Span(s, 0, IsSpace);
            a + |r| <= |s| && r == s[a..a + |r|]
            && (forall k :: a + |r| <= k < |s| ==> IsSpace(s[k]))
    ensures (|s| == 0 || (!IsSpace(s[0]) && !IsSpace(s[|s| - 1]))) ==> r == s
  {
    var a := Span(s, 0, IsSpace);
    var r := TrimEnd(s[a..]);
    assert r == s[a..a + |r|];
    r
  }

  /** Text that starts with a digit or a minus sign and ends with a digit has
      nothing for `strip` to remove. */
  lemma StripDigitEnds(s: string)
    requires |s| > 0 && (IsDigit(s[0]) || s[0] == '-') && IsDigit(s[|s| - 1])
    ensures Strip(s) == s
  {
    assert !IsSpace(s[0]) && !IsSpace(s[|s| - 1]);
  }

  /** `s.replace(c, "")` */
  function RemoveChar(s: string, c: char): (r: string)
    ensures c !in r && |r| <= |s|
    ensures c !in s ==> r == s
  {
    if |s| == 0 then ""
    else (if s[0] == c then "" else [s[0]]) + RemoveChar(s[1..], c)
  }

  /** The trailing run of non-space characters of `s`. */
  function TrailingWord(s: string): (w: string)
    ensures |w| <= |s| && w == s[|s| - |w|..]
    ensures forall k :: 0 <= k < |w| ==> !IsSpace(w[k])
    ensures |w| == |s| || IsSpace(s[|s| - |w| - 1])
  {
    if |s| == 0 || IsSpace(s[|s| - 1]) then "" else TrailingWord(s[..|s| - 1]) + [s[|s| - 1]]
  }

  /** `w` ends `t` and stands after a space or at the start of `t`. */
  predicate EndWord(w: string, t: string)
  {
    |w| <= |t| && w == t[|t| - |w|..] && (|w| == |t| || IsSpace(t[|t| - |w| - 1]))
  }

  /** `s.split()[-1]`: the last whitespace-separated word. Python raises on a
      string with no word, so the caller must supply one. */
  function LastWord(s: string): (w: string)
    requires exists k :: 0 <= k < |s| && !IsSpace(s[k])
    ensures |w| >= 1
    ensures forall k :: 0 <= k < |w| ==> !IsSpace(w[k])
    ensures var e := |TrimEnd(s)|;
            |w| <= e <= |s| && w == s[e - |w|..e]
            && (e == |w| || IsSpace(s[e - |w| - 1]))
            && (forall k :: e <= k < |s| ==> IsSpace(s[k]))
  {
    var t := TrimEnd(s);
    assert |t| > 0 by {
      var k :| 0 <= k < |s| && !IsSpace(s[k]);
    }
    TrailingWord(t)
  }

  /** The last word of a text that ends in a word standing after a space is
      that word. */
  lemma LastWordAfterSpace(a: string, w: string)
    requires |a| > 0 && IsSpace(a[|a| - 1])
    requires |w| > 0 && forall k :: 0 <= k < |w| ==> !IsSpace(w[k])
    ensures (a + w)[|a + w| - 1] == w[|w| - 1]
    ensures LastWord(a + w) == w
  {
    var s := a + w;
    assert s[|s| - 1] == w[|w| - 1];
    var e := |TrimEnd(s)|;
    assert e == |s|;
    assert s[|a|..] == w;
  }
}
