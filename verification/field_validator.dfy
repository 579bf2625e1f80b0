/** The field check of the LLM-based extractor (`ftaipynb.py`): the extracted
    invoice is a JSON object; each of eight required fields must be present and
    truthy, and TRN, date and amount fields must also have the right form. The
    verdict is written back into the object under "FTA Status". */
module FieldValidator {
  import opened Wrappers
  import opened Text
  import opened Calendar
  import opened Money

  /** A JSON value as `json.loads` returns it. Floats, lists and nested
      objects are `Other`, described by their truthiness and their `str()`. */
  datatype Value =
    | Null
    | Bool(b: bool)
    | Int(i: int)
    | Str(s: string)
    | Other(truthy: bool, text: string)

  /** Python truthiness: `None`, `False`, `0` and `""` are false. */
  predicate Truthy(v: Value)
  {
    match v
    case Null => false
    case Bool(b) => b
    case Int(i) => i != 0
    case Str(s) => |s| > 0
    case Other(t, _) => t
  }

  /** Python's `str(v)`. */
  function ToStr(v: Value): string
  {
    match v
    case Null => "None"
    case Bool(b) => if b then "True" else "False"
    case Int(i) => IntToString(i)
    case Str(s) => s
    case Other(_, text) => text
  }

  /** `FTA_FIELDS`, in order. */
  const FtaFields: seq<string> := [
    "Invoice Number",
    "Invoice Date",
    "Supplier Name",
    "Supplier TRN",
    "Buyer Name",
    "Buyer TRN",
    "Total Amount",
    "VAT Amount"
  ]

  datatype FieldKind = TrnField | DateField | AmountField | PlainField

  /** The `if "TRN" in field / elif "Date" / elif "Amount"` dispatch. */
  function KindOf(field: string): FieldKind
  {
    if Contains(field, "TRN") then TrnField
    else if Contains(field, "Date") then DateField
    else if Contains(field, "Amount") then AmountField
    else PlainField
  }

  /** `value.isdigit() and len(value) == 15` */
  predicate IsTrnText(value: string)
  {
    |value| == 15 && AllDigits(value)
  }

  /** `strptime(value, "%d/%m/%Y")`, falling back to `"%Y-%m-%d"`. */
  predicate IsDateText(value: string)
  {
    Strptime(value, DayMonthYear('/')).Some? || Strptime(value, YearMonthDay('-')).Some?
  }

  /** The TRN check on the stripped text of a present field. */
  function TrnIssue(field: string, value: string): Option<string>
  {
    if !IsTrnText(value) then Some(field + " invalid (should be 15 digits)") else None
  }

  /** The date check on the stripped text of a present field. */
  function DateIssue(field: string, value: string): Option<string>
  {
    if !IsDateText(value) then Some(field + " invalid format") else None
  }

  /** The amount check on the stripped text of a present field: `float(value)`
      must succeed and not be negative. */
  function AmountIssue(field: string, value: string): Option<string>
  {
    match ParseDecimal(value)
    case None => Some(field + " invalid number")
    case Some(x) => if x.mantissa < 0 then Some(field + " cannot be negative") else None
  }

  /** The one issue a field can raise, or `None` when it passes. */
  function FieldIssue(d: map<string, Value>, field: string): (r: Option<string>)
    ensures r.Some? ==> |r.value| > |field| && r.value[..|field|] == field
  {
    if field !in d || !Truthy(d[field]) then Some(field + " missing")
    else
      var value := Strip(ToStr(d[field]));
      match KindOf(field)
      case TrnField => TrnIssue(field, value)
      case DateField => DateIssue(field, value)
      case AmountField => AmountIssue(field, value)
      case PlainField => None
  }

  /** Each field's outcome, in `FTA_FIELDS` order. */
  function FieldChecks(d: map<string, Value>): seq<Option<string>>
  {
    seq(|FtaFields|, k requires 0 <= k < |FtaFields| => FieldIssue(d, FtaFields[k]))
  }

  /** The `issues` list the loop builds. */
  function Issues(d: map<string, Value>): seq<string>
  {
    Somes(FieldChecks(d))
  }

  /** The status line written under "FTA Status". */
  function StatusLine(issues: seq<string>): string
  {
    if |issues| == 0 then "\U{2705} Approved"
    else "\U{274C} Not Approved: " + Join(issues, "; ")
  }

  /** `validate_fta_fields(invoice_dict)`: the same object with "FTA Status"
      set; every other entry is left as it was. */
  function Validated(d: map<string, Value>): (r: map<string, Value>)
    ensures r.Keys == d.Keys + {"FTA Status"}
    ensures forall k :: k in d && k != "FTA Status" ==> r[k] == d[k]
    ensures r["FTA Status"] == Str(StatusLine(Issues(d)))
  {
    d["FTA Status" := Str(StatusLine(Issues(d)))]
  }

  /** The loop of `validate_fta_fields`, field by field, appending each issue;
      it builds exactly the object `Validated` describes. */
  method ValidateFtaFields(d: map<string, Value>) returns (r: map<string, Value>)
    ensures r == Validated(d)
  {
    var issues: seq<string> := [];
    var i := 0;
    while i < |FtaFields|
      invariant 0 <= i <= |FtaFields|
      invariant issues == Somes(FieldChecks(d)[..i])
    {
      var issue := FieldIssue(d, FtaFields[i]);
      assert FieldChecks(d)[..i + 1][..i] == FieldChecks(d)[..i];
      if issue.Some? {
        issues := issues + [issue.value];
      }
      i := i + 1;
    }
    assert FieldChecks(d)[..i] == FieldChecks(d);
    if |issues| > 0 {
      r := d["FTA Status" := Str("\U{274C} Not Approved: " + Join(issues, "; "))];
    } else {
      r := d["FTA Status" := Str("\U{2705} Approved")];
    }
  }

  // ---------------------------------------------------------------------------
  // Properties

  /** The object is approved exactly when every one of the eight fields
      passes. */
  lemma ApprovedIffEveryFieldPasses(d: map<string, Value>)
    ensures Validated(d)["FTA Status"] == Str("\U{2705} Approved")
            <==> forall k :: 0 <= k < |FtaFields| ==> FieldIssue(d, FtaFields[k]).None?
  {
    var cs := FieldChecks(d);
    assert |cs| == |FtaFields| && forall k :: 0 <= k < |cs| ==> cs[k] == FieldIssue(d, FtaFields[k]);
    SomesEmpty(cs);
    var issues := Issues(d);
    if |issues| > 0 {
      var line := "\U{274C} Not Approved: " + Join(issues, "; ");
      assert line[0] != "\U{2705} Approved"[0];
    }
  }

  /** The TRN, date and amount fields are recognised by their names. */
  lemma CheckedFieldKinds()
    ensures KindOf("Supplier TRN") == TrnField && KindOf("Buyer TRN") == TrnField
    ensures KindOf("Invoice Date") == DateField
    ensures KindOf("Total Amount") == AmountField && KindOf("VAT Amount") == AmountField
  {
    assert MatchesAt("Supplier TRN", 9, "TRN");
    assert MatchesAt("Buyer TRN", 6, "TRN");
    assert MatchesAt("Invoice Date", 8, "Date");
    assert MatchesAt("Total Amount", 6, "Amount");
    assert MatchesAt("VAT Amount", 4, "Amount");
    NotContains("Invoice Date", "TRN");
    NotContains("Total Amount", "TRN");
    NotContains("Total Amount", "Date");
    NotContains("VAT Amount", "TRN");
    NotContains("VAT Amount", "Date");
  }

  /** The number and the two names are only checked for presence. */
  lemma PlainFieldKinds()
    ensures KindOf("Invoice Number") == PlainField
    ensures KindOf("Supplier Name") == PlainField && KindOf("Buyer Name") == PlainField
  {
    NotContains("Invoice Number", "TRN");
    NotContains("Invoice Number", "Date");
    NotContains("Invoice Number", "Amount");
    NotContains("Supplier Name", "TRN");
    NotContains("Supplier Name", "Date");
    NotContains("Supplier Name", "Amount");
    NotContains("Buyer Name", "TRN");
    NotContains("Buyer Name", "Date");
    NotContains("Buyer Name", "Amount");
  }

  /** What each of the eight fields is checked for. */
  lemma FieldKinds()
    ensures forall k :: 0 <= k < |FtaFields| ==>
              KindOf(FtaFields[k])
              == [PlainField, DateField, PlainField, TrnField, PlainField, TrnField, AmountField, AmountField][k]
  {
    CheckedFieldKinds();
    PlainFieldKinds();
  }

  /** A keyword whose first two letters never occur side by side in `s` does
      not occur in `s`. */
  lemma NotContains(s: string, pat: string)
    requires |pat| >= 2
    requires forall i :: 0 <= i < |s| - 1 ==> !(s[i] == pat[0] && s[i + 1] == pat[1])
    ensures !Contains(s, pat)
  {
    forall i: nat | i <= |s| ensures !MatchesAt(s, i, pat) {
      if i + |pat| <= |s| {
        assert s[i..i + |pat|][0] == s[i] && s[i..i + |pat|][1] == s[i + 1];
      }
    }
  }

  /** When the extractor's output was not JSON, the object holds only
      "raw_output", and every field is reported missing, in order. */
  lemma RawOutputReportsAllMissing(output: string)
    ensures Issues(map["raw_output" := Str(output)])
            == seq(|FtaFields|, k requires 0 <= k < |FtaFields| => FtaFields[k] + " missing")
  {
    var d := map["raw_output" := Str(output)];
    var cs := FieldChecks(d);
    forall k | 0 <= k < |FtaFields|
      ensures cs[k] == Some(FtaFields[k] + " missing")
    {
      assert FtaFields[k][0] != 'r';
      assert FtaFields[k] !in d;
    }
    SomesAllPresent(cs);
  }

  /** `str(i).strip()` is `str(i)`: an integer prints without spaces. */
  lemma IntTextIsStripped(i: int)
    ensures Strip(IntToString(i)) == IntToString(i)
  {
    var n := if i < 0 then -i else i;
    NatToStringRoundTrip(n);
    var t := NatToString(n);
    var u := IntToString(i);
    assert u == if i < 0 then "-" + t else t;
    assert u[|u| - 1] == t[|t| - 1];
    StripDigitEnds(u);
  }

  /** A present, truthy field is judged on its stripped text by the check of
      its kind. */
  lemma PresentFieldIssue(d: map<string, Value>, field: string, value: string)
    requires field in d && Truthy(d[field]) && Strip(ToStr(d[field])) == value
    ensures KindOf(field) == TrnField ==> FieldIssue(d, field) == TrnIssue(field, value)
    ensures KindOf(field) == DateField ==> FieldIssue(d, field) == DateIssue(field, value)
    ensures KindOf(field) == AmountField ==> FieldIssue(d, field) == AmountIssue(field, value)
  {
  }

  /** A nonzero integer prints as fifteen digits exactly when it lies in
      `[10^14, 10^15)`; a negative one prints with a leading minus sign. */
  lemma IntTrnText(i: int)
    requires i != 0
    ensures IsTrnText(IntToString(i)) <==> Pow10(14) <= i < Pow10(15)
  {
    if i > 0 {
      NatToStringRoundTrip(i);
      NatToStringLength(i, 15);
    } else {
      assert !IsDigit(IntToString(i)[0]);
    }
  }

  /** A TRN given as a JSON number passes exactly when it has fifteen digits;
      zero counts as missing and a negative number is invalid. */
  lemma IntTrnIssue(d: map<string, Value>, field: string, i: int)
    requires field in d && d[field] == Int(i) && KindOf(field) == TrnField
    ensures FieldIssue(d, field)
            == if i == 0 then Some(field + " missing")
               else if Pow10(14) <= i < Pow10(15) then None
               else Some(field + " invalid (should be 15 digits)")
  {
    if i != 0 {
      IntTextIsStripped(i);
      IntTrnText(i);
      PresentFieldIssue(d, field, IntToString(i));
    }
  }

  /** A present amount whose stripped text is not a plain decimal literal
      (`"1,050.00"`, `"AED 50"`, `"."`) is reported as an invalid number, and
      only such a text is. */
  lemma TextAmountIssue(d: map<string, Value>, field: string, value: string)
    requires field in d && Truthy(d[field]) && Strip(ToStr(d[field])) == value
    requires KindOf(field) == AmountField
    ensures FieldIssue(d, field) == Some(field + " invalid number") <==> !IsDecimalLiteral(value)
  {
    PresentFieldIssue(d, field, value);
    ParseDecimalAccepts(value);
    assert (field + " invalid number")[|field|..] == " invalid number";
    assert (field + " cannot be negative")[|field|..] == " cannot be negative";
  }

  /** An amount given as a JSON integer: zero counts as missing, a negative
      amount is reported, any other passes. */
  lemma IntAmountIssue(d: map<string, Value>, field: string, i: int)
    requires field in d && d[field] == Int(i) && KindOf(field) == AmountField
    ensures FieldIssue(d, field)
            == if i == 0 then Some(field + " missing")
               else if i < 0 then Some(field + " cannot be negative")
               else None
  {
    if i != 0 {
      IntTextIsStripped(i);
      IntParses(i);
      PresentFieldIssue(d, field, IntToString(i));
    }
  }

  /** A printed amount, with or without a minus sign, has no surrounding
      whitespace. */
  lemma AmountTextIsStripped(h: Fils)
    ensures Strip(AmountRepr(h)) == AmountRepr(h)
    ensures Strip("-" + AmountRepr(h)) == "-" + AmountRepr(h)
  {
    var t := AmountRepr(h);
    var w := NatToString(h / 100);
    NatToStringRoundTrip(h / 100);
    assert t[0] == w[0];
    StripDigitEnds(t);
    var s := "-" + t;
    assert s[0] == '-' && s[|s| - 1] == t[|t| - 1];
    StripDigitEnds(s);
  }

  /** A minus sign negates what the digits read as. */
  lemma NegatedParse(t: string)
    requires |t| > 0 && IsDigit(t[0]) && ParseDecimal(t).Some?
    ensures ParseDecimal("-" + t)
            == Some(Decimal(-ParseDecimal(t).value.mantissa, ParseDecimal(t).value.scale))
  {
    assert ("-" + t)[1..] == t;
  }

  /** A printed amount reads back as a number that is never negative and is
      zero only for zero fils. */
  lemma AmountReprSign(h: Fils)
    ensures ParseDecimal(AmountRepr(h)).Some?
    ensures var x := ParseDecimal(AmountRepr(h)).value;
            x.mantissa >= 0 && (x.mantissa == 0 <==> h == 0)
  {
    AmountReprParses(h);
    var x := ParseDecimal(AmountRepr(h)).value;
    var p := Pow10(x.scale);
    assert p > 0;
    assert x.mantissa * 100 == h * p;
    if h > 0 {
      assert h * p > 0;
    }
  }

  /** The amount check on a printed amount, with or without a minus sign. */
  lemma AmountReprIssue(field: string, h: Fils, negative: bool)
    ensures AmountIssue(field, if negative then "-" + AmountRepr(h) else AmountRepr(h))
            == if negative && h > 0 then Some(field + " cannot be negative") else None
  {
    var t := AmountRepr(h);
    AmountReprSign(h);
    if negative {
      NatToStringRoundTrip(h / 100);
      assert t[0] == NatToString(h / 100)[0];
      NegatedParse(t);
    }
  }

  /** An amount written as Python prints a float (`1050.0`, `52.5`) passes;
      the same text with a minus sign is reported negative unless it is zero. */
  lemma AmountTextIssue(d: map<string, Value>, field: string, h: Fils, negative: bool)
    requires KindOf(field) == AmountField
    requires field in d && d[field] == Str(if negative then "-" + AmountRepr(h) else AmountRepr(h))
    ensures FieldIssue(d, field) == if negative && h > 0 then Some(field + " cannot be negative") else None
  {
    var value := if negative then "-" + AmountRepr(h) else AmountRepr(h);
    AmountTextIsStripped(h);
    assert Strip(value) == value;
    AmountReprIssue(field, h, negative);
    PresentFieldIssue(d, field, value);
  }

  /** A rendered date starts and ends with a digit, so `strip` keeps it. */
  lemma RenderedDateIsStripped(date: Date, fmt: Format)
    requires IsValid(date)
    ensures Strip(Render(date, fmt)) == Render(date, fmt)
  {
    StripDigitEnds(Render(date, fmt));
  }

  /** A date written as `DD/MM/YYYY` or as `YYYY-MM-DD` passes the date check. */
  lemma RenderedDatePasses(d: map<string, Value>, field: string, date: Date, fmt: Format)
    requires IsValid(date) && (fmt == DayMonthYear('/') || fmt == YearMonthDay('-'))
    requires field in d && d[field] == Str(Render(date, fmt)) && KindOf(field) == DateField
    ensures FieldIssue(d, field).None?
  {
    var t := Render(date, fmt);
    RenderParses(date, fmt);
    assert IsDateText(t);
    RenderedDateIsStripped(date, fmt);
    PresentFieldIssue(d, field, t);
  }

  /** Each field's outcome depends on that field's entry alone: two objects
      that agree on it give it the same outcome, whatever else they hold. */
  lemma FieldChecksLocal(d1: map<string, Value>, d2: map<string, Value>, k: nat)
    requires k < |FtaFields|
    requires FtaFields[k] in d1 <==> FtaFields[k] in d2
    requires FtaFields[k] in d1 ==> d1[FtaFields[k]] == d2[FtaFields[k]]
    ensures FieldChecks(d1)[k] == FieldChecks(d2)[k]
  {
  }

  /** Validating an object that was already validated writes the same status
      again: the "FTA Status" entry is not one of the checked fields. */
  lemma RevalidationIsStable(d: map<string, Value>)
    ensures Validated(Validated(d)) == Validated(d)
  {
    var v := Validated(d);
    forall k | 0 <= k < |FtaFields|
      ensures FieldChecks(v)[k] == FieldChecks(d)[k]
    {
      assert FtaFields[k] != "FTA Status";
      FieldChecksLocal(v, d, k);
    }
    assert FieldChecks(v) == FieldChecks(d);
  }
}
