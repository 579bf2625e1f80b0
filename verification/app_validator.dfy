/** The longer validator (`fta_validator_app.py`): eight fields are pulled out
    of the invoice text, the invoice is classed as simplified or full by its
    total, and eight rules run in order. Six of them are hard (they fail the
    invoice); the last two only add a remark. */
module AppValidator {
  import opened Wrappers
  import opened Text
  import opened Calendar
  import opened Money
  import opened Patterns
  import opened Rules

  /** The fields `validate_invoice` extracts, before classification. */
  datatype Fields = Fields(
    trn: Option<string>,
    invoiceNumber: Option<string>,
    invoiceDate: Option<DateText>,
    vatRate: Option<string>,
    totalAmount: Option<Fils>,
    vatAmount: Option<Fils>,
    supplier: Option<string>,
    customer: Option<string>)

  /** `\b5\s?%|\b0\s?%`: at each position the `5` branch is tried first. */
  function AppRateAt(s: string, i: nat): Option<string>
  {
    match RateAt(s, i, '5')
    case Some(r) => Some(r)
    case None => RateAt(s, i, '0')
  }

  function TotalAt(s: string, i: nat): Option<Fils>
  {
    LabelledAmountAt(s, i, "total")
  }

  function VatAt(s: string, i: nat): Option<Fils>
  {
    LabelledAmountAt(s, i, "vat")
  }

  function SupplierAt(s: string, i: nat): Option<string>
  {
    PartyAt(s, i, "supplier")
  }

  function CustomerAt(s: string, i: nat): Option<string>
  {
    PartyAt(s, i, "customer")
  }

  /** `s.split()[-1]` on a match that ends in a word character. */
  function LastWordOf(t: string): (r: string)
    requires |t| >= 1 && !IsSpace(t[|t| - 1])
    ensures |r| >= 1 && forall k :: 0 <= k < |r| ==> !IsSpace(r[k])
    ensures EndWord(r, t)
  {
    LastWord(t)
  }

  /** `match.group(0).split()[-1]`: the last word of the leftmost
      invoice-number match. */
  function InvoiceNumber(text: string): (r: Option<string>)
    ensures r.Some? <==> Search(text, InvoiceNoAt).Some?
    ensures r.Some? ==> |r.value| >= 1 && forall k :: 0 <= k < |r.value| ==> !IsSpace(r.value[k])
    ensures r.Some? ==> EndWord(r.value, Search(text, InvoiceNoAt).value)
  {
    match Search(text, InvoiceNoAt)
    case None => None
    case Some(t) =>
      InvoiceNoFound(text, t);
      Some(LastWordOf(t))
  }

  /** The leftmost date-like match, `\b\d{1,2}[-/]\d{1,2}[-/]\d{2,4}\b`. */
  function InvoiceDate(text: string): (r: Option<DateText>)
    ensures r == Search(text, LooseDateAt)
    ensures r.Some? ==> r.value.Shaped(1, 2)
  {
    var r := Search(text, LooseDateAt);
    assert r.Some? ==> r.value.Shaped(1, 2) by {
      if r.Some? {
        var p: nat :| p <= |text| && LooseDateAt(text, p) == r;
      }
    }
    r
  }

  function StripParty(m: Option<string>): Option<string>
  {
    match m
    case None => None
    case Some(t) => Some(Strip(t))
  }

  /** The extraction half of `validate_invoice`. */
  function Extract(text: string): (f: Fields)
    ensures f.trn.None? <==> !HasTrnRun(text)
    ensures f.trn.Some? ==> IsTrn(f.trn.value)
    ensures f.invoiceNumber.Some? <==> Search(text, InvoiceNoAt).Some?
    ensures f.invoiceNumber.Some? ==>
              |f.invoiceNumber.value| >= 1 && forall k :: 0 <= k < |f.invoiceNumber.value| ==> !IsSpace(f.invoiceNumber.value[k])
    ensures f.invoiceDate.Some? ==> f.invoiceDate.value.Shaped(1, 2)
    ensures f.vatRate.Some? ==> ' ' !in f.vatRate.value
  {
    var rate := Search(text, AppRateAt);
    Fields(
      FindTrn(text),
      InvoiceNumber(text),
      InvoiceDate(text),
      if rate.Some? then Some(RemoveChar(rate.value, ' ')) else None,
      Search(text, TotalAt),
      Search(text, VatAt),
      StripParty(Search(text, SupplierAt)),
      StripParty(Search(text, CustomerAt)))
  }

  datatype InvoiceType = Simplified | Full

  /** `"Simplified Tax Invoice" if total_amount < 10000 else "Full Tax Invoice"`,
      when a total was found. 10000 AED is 1000000 fils. */
  function TypeOf(total: Option<Fils>): Option<InvoiceType>
  {
    match total
    case None => None
    case Some(t) => Some(if t < 1000000 then Simplified else Full)
  }

  function TypeText(t: InvoiceType): string
  {
    if t == Simplified then "Simplified Tax Invoice" else "Full Tax Invoice"
  }

  const MissingLabel := Remark("Missing 'Tax Invoice' label", true)
  const InvalidTrn := Remark("Invalid or missing TRN", true)
  const NumberMissing := Remark("Invoice number missing", true)
  const DateMissing := Remark("Invoice date missing", true)
  const InvalidDate := Remark("Invalid date format", true)
  const FutureDate := Remark("Invoice date is in the future", true)
  const NotAed := Remark("Amounts not in AED", true)
  const ReverseCharge := Remark("Reverse charge mentioned", false)
  const Discount := Remark("Discount applied \U{2014} ensure VAT recalculated", false)

  /** The mismatch remark, with both amounts written as Python prints a float. */
  function VatMismatch(expected: Fils, found: Fils): Remark
  {
    Remark("VAT mismatch (Expected " + AmountRepr(expected) + ", Found " + AmountRepr(found) + ")", true)
  }

  /** Rule 1: `"tax invoice" not in text.lower()` */
  function LabelRule(text: string): Option<Remark>
  {
    FiresIf(!ContainsIgnoreCase(text, "tax invoice"), MissingLabel)
  }

  /** Rule 2: `not trn or not re.match(r'^100\d{10}$', trn)` */
  function TrnRule(f: Fields): Option<Remark>
  {
    FiresIf(f.trn.None? || !IsTrn(f.trn.value), InvalidTrn)
  }

  /** Rule 3: `not invoice_number` */
  function NumberRule(f: Fields): Option<Remark>
  {
    FiresIf(f.invoiceNumber.None? || |f.invoiceNumber.value| == 0, NumberMissing)
  }

  /** Rule 4: a missing date, a date `strptime(.., "%d-%m-%Y")` rejects, or a
      date after today. */
  function DateRule(f: Fields, today: Date): Option<Remark>
  {
    match f.invoiceDate
    case None => Some(DateMissing)
    case Some(d) =>
      if |d.Text()| == 0 then Some(DateMissing)
      else
        match Strptime(d.Text(), DayMonthYear('-'))
        case None => Some(InvalidDate)
        case Some(date) => FiresIf(IsAfter(date, today), FutureDate)
  }

  /** Rule 5: only when both amounts are present and non-zero; the expected
      VAT is `round(total * 0.05, 2)` and the tolerance is 0.5 AED. */
  function VatRule(f: Fields): Option<Remark>
  {
    if f.totalAmount.Some? && f.vatAmount.Some? && f.totalAmount.value != 0 && f.vatAmount.value != 0 then
      var expected := FivePercent(f.totalAmount.value);
      FiresIf(Abs(f.vatAmount.value - expected) > 50, VatMismatch(expected, f.vatAmount.value))
    else None
  }

  /** Rule 6: `"aed" not in text.lower()` */
  function CurrencyRule(text: string): Option<Remark>
  {
    FiresIf(!ContainsIgnoreCase(text, "aed"), NotAed)
  }

  /** Rule 7 (informational): `"reverse charge" in text.lower()` */
  function ReverseChargeRule(text: string): Option<Remark>
  {
    FiresIf(ContainsIgnoreCase(text, "reverse charge"), ReverseCharge)
  }

  /** Rule 8 (informational): `"discount" in text.lower()` */
  function DiscountRule(text: string): Option<Remark>
  {
    FiresIf(ContainsIgnoreCase(text, "discount"), Discount)
  }

  /** The six hard rules, in source order. */
  function HardChecks(text: string, f: Fields, today: Date): seq<Option<Remark>>
  {
    [LabelRule(text), TrnRule(f), NumberRule(f), DateRule(f, today), VatRule(f), CurrencyRule(text)]
  }

  /** All eight rules, in source order. */
  function Checks(text: string, f: Fields, today: Date): seq<Option<Remark>>
  {
    HardChecks(text, f, today) + [ReverseChargeRule(text), DiscountRule(text)]
  }

  function Evaluate(text: string, f: Fields, today: Date): Outcome
  {
    Run(Checks(text, f, today))
  }

  /** The dictionary `validate_invoice` returns. */
  datatype InvoiceResult = InvoiceResult(
    file: string,
    invoiceType: Option<string>,
    trn: Option<string>,
    invoiceNumber: Option<string>,
    invoiceDate: Option<string>,
    supplier: Option<string>,
    customer: Option<string>,
    vatRate: Option<string>,
    vatAmount: Option<Fils>,
    totalAmount: Option<Fils>,
    status: string,
    remarks: string)

  /** `pdf_path.split("/")[-1]` */
  function FileName(path: string): string
  {
    var parts := Split(path, '/');
    parts[|parts| - 1]
  }

  /** `", ".join(remarks)`, after an empty list was replaced by the single
      "all passed" remark. */
  function RemarksText(o: Outcome): string
  {
    if |o.remarks| == 0 then "All mandatory FTA checks passed" else Join(Messages(o.remarks), ", ")
  }

  /** `validate_invoice(pdf_path)` on the path and the extracted text; `today`
      is the date of `datetime.now()`. */
  function ValidateInvoice(path: string, text: string, today: Date): InvoiceResult
  {
    var f := Extract(text);
    var o := Evaluate(text, f, today);
    var kind := TypeOf(f.totalAmount);
    InvoiceResult(
      FileName(path),
      if kind.Some? then Some(TypeText(kind.value)) else None,
      f.trn, f.invoiceNumber,
      if f.invoiceDate.Some? then Some(f.invoiceDate.value.Text()) else None,
      f.supplier, f.customer, f.vatRate, f.vatAmount, f.totalAmount,
      StatusText(o.status), RemarksText(o))
  }

  // ---------------------------------------------------------------------------
  // Properties

  /** Unfolding `Run` over the eight rules: the remarks are the fired ones in
      rule order. */
  lemma RemarksInRuleOrder(text: string, f: Fields, today: Date)
    ensures var cs := Checks(text, f, today);
            Evaluate(text, f, today).remarks == Somes(cs[..6]) + Somes(cs[6..])
  {
    var cs := Checks(text, f, today);
    SomesAppend(cs[..6], cs[6..]);
    assert cs[..6] + cs[6..] == cs;
  }

  /** The informational rules never decide the verdict: the invoice is
      approved exactly when none of the six hard rules fired. */
  lemma ApprovedIffHardRulesPass(text: string, f: Fields, today: Date)
    ensures Evaluate(text, f, today).status == Approved
            <==> && LabelRule(text).None? && TrnRule(f).None? && NumberRule(f).None?
                 && DateRule(f, today).None? && VatRule(f).None? && CurrencyRule(text).None?
  {
    var cs := Checks(text, f, today);
    assert cs[0] == LabelRule(text) && cs[1] == TrnRule(f) && cs[2] == NumberRule(f);
    assert cs[3] == DateRule(f, today) && cs[4] == VatRule(f) && cs[5] == CurrencyRule(text);
    assert cs[6] == ReverseChargeRule(text) && cs[7] == DiscountRule(text);
    if Evaluate(text, f, today).status == NotApproved {
      var k :| 0 <= k < |cs| && cs[k].Some? && cs[k].value.hard;
      assert k < 6;
    }
  }

  /** An approved invoice carries at most the two informational remarks, so its
      remarks column is the "all passed" text or names only reverse charge and
      discount. */
  lemma ApprovedRemarksAreInformational(text: string, f: Fields, today: Date)
    ensures var o := Evaluate(text, f, today);
            o.status == Approved ==> forall k :: 0 <= k < |o.remarks| ==> o.remarks[k] in {ReverseCharge, Discount}
  {
    var cs := Checks(text, f, today);
    var o := Evaluate(text, f, today);
    if o.status == Approved {
      ApprovedIffHardRulesPass(text, f, today);
      RemarksInRuleOrder(text, f, today);
      SomesEmpty(cs[..6]);
      assert Somes(cs[..6]) == [];
      SomesSound(cs[6..]);
      assert forall k :: 0 <= k < |o.remarks| ==> o.remarks[k] == Somes(cs[6..])[k];
    }
  }

  /** No remark's message begins like "All mandatory FTA checks passed": the
      first two letters differ. */
  lemma RemarkHead(text: string, f: Fields, today: Date, j: nat)
    requires j < |Checks(text, f, today)| && Checks(text, f, today)[j].Some?
    ensures var m := Checks(text, f, today)[j].value.message;
            |m| >= 2 && (m[0] != 'A' || m[1] != 'l')
  {
    var cs := Checks(text, f, today);
    if j == 4 {
      var e := FivePercent(f.totalAmount.value);
      var m := "VAT mismatch (Expected " + AmountRepr(e) + ", Found " + AmountRepr(f.vatAmount.value) + ")";
      assert cs[4] == Some(VatMismatch(e, f.vatAmount.value));
      assert m[0] == 'V';
    } else {
      assert cs[j].value in {MissingLabel, InvalidTrn, NumberMissing, DateMissing, InvalidDate, FutureDate,
                             NotAed, ReverseCharge, Discount};
    }
  }

  /** The "all passed" text is never the join of remarks whose first message
      begins differently. */
  lemma DefaultTextOnlyWhenEmpty(o: Outcome)
    requires |o.remarks| > 0 ==> var m := o.remarks[0].message; |m| >= 2 && (m[0] != 'A' || m[1] != 'l')
    ensures RemarksText(o) == "All mandatory FTA checks passed" <==> |o.remarks| == 0
  {
    if |o.remarks| > 0 {
      var msg := o.remarks[0].message;
      var parts := Messages(o.remarks);
      assert parts[0] == msg;
      JoinPrefix(parts, ", ");
      var line := Join(parts, ", ");
      assert line[..|msg|] == msg;
      assert line[0] == msg[0] && line[1] == msg[1];
    }
  }

  /** The remarks column reads "All mandatory FTA checks passed" exactly when
      no rule fired: no list of real remarks joins to that text. */
  lemma AllPassedIffNothingFired(text: string, f: Fields, today: Date)
    ensures RemarksText(Evaluate(text, f, today)) == "All mandatory FTA checks passed"
            <==> forall k :: 0 <= k < |Checks(text, f, today)| ==> Checks(text, f, today)[k].None?
  {
    var cs := Checks(text, f, today);
    var o := Evaluate(text, f, today);
    SomesEmpty(cs);
    if |o.remarks| > 0 {
      SomesSound(cs);
      var j :| 0 <= j < |cs| && cs[j] == Some(o.remarks[0]);
      RemarkHead(text, f, today, j);
    }
    DefaultTextOnlyWhenEmpty(o);
  }

  /** The classification: simplified below 10000 AED, full from 10000 AED on,
      and none when no total was found. */
  lemma InvoiceTypeThreshold(path: string, text: string, today: Date)
    ensures var r := ValidateInvoice(path, text, today);
            && (r.invoiceType.None? <==> r.totalAmount.None?)
            && (r.invoiceType == Some("Simplified Tax Invoice") <==> r.totalAmount.Some? && r.totalAmount.value < 1000000)
            && (r.invoiceType == Some("Full Tax Invoice") <==> r.totalAmount.Some? && r.totalAmount.value >= 1000000)
  {
  }

  /** Exactly one date outcome: no date gives "Invoice date missing"; a date with
      two `-` separators, a four-digit year and a real calendar day gives
      "Invoice date is in the future" exactly when it lies after today and
      nothing otherwise; every other matched date (a `/`, a two-digit year,
      31 April) gives "Invalid date format". */
  lemma DateOutcomes(text: string, today: Date)
    ensures var f := Extract(text);
            f.invoiceDate.None? ==> DateRule(f, today) == Some(DateMissing)
    ensures var f := Extract(text);
            f.invoiceDate.Some? ==>
              var d := f.invoiceDate.value;
              var date := Date(DigitsValue(d.day), DigitsValue(d.month), DigitsValue(d.year));
              if d.sep1 == '-' && d.sep2 == '-' && |d.year| == 4 && IsValid(date)
              then DateRule(f, today) == (if IsAfter(date, today) then Some(FutureDate) else None)
              else DateRule(f, today) == Some(InvalidDate)
  {
    var f := Extract(text);
    if f.invoiceDate.Some? {
      MatchedDateRule(f, today);
    }
  }

  /** The date rule on a matched date, whose groups are one or two digits with
      a two-to-four-digit year. */
  lemma MatchedDateRule(f: Fields, today: Date)
    requires f.invoiceDate.Some? && f.invoiceDate.value.Shaped(1, 2)
    ensures var d := f.invoiceDate.value;
            var date := Date(DigitsValue(d.day), DigitsValue(d.month), DigitsValue(d.year));
            if d.sep1 == '-' && d.sep2 == '-' && |d.year| == 4 && IsValid(date)
            then DateRule(f, today) == (if IsAfter(date, today) then Some(FutureDate) else None)
            else DateRule(f, today) == Some(InvalidDate)
  {
    var d := f.invoiceDate.value;
    DigitGroupsParse(d.day, d.sep1, d.month, d.sep2, d.year, '-');
  }

  /** The 0.5 AED tolerance is measured from the rounded 5%, so against the
      exact 5% of the total it lies between 49.5 and 50.5 fils: a VAT within
      49.5 fils of 5% of the total always passes, one more than 50.5 fils away
      always fails (when both amounts are present and non-zero). */
  lemma VatToleranceBounds(f: Fields)
    requires f.totalAmount.Some? && f.vatAmount.Some?
    requires f.totalAmount.value != 0 && f.vatAmount.value != 0
    ensures Abs(20 * f.vatAmount.value - f.totalAmount.value) <= 990 ==> VatRule(f).None?
    ensures Abs(20 * f.vatAmount.value - f.totalAmount.value) > 1010 ==> VatRule(f).Some?
  {
    var t: int := f.totalAmount.value;
    var v: int := f.vatAmount.value;
    var e: int := FivePercent(f.totalAmount.value);
    assert -10 <= 20 * e - t <= 10;
    assert 20 * (v - e) == (20 * v - t) - (20 * e - t);
  }

  /** No VAT remark without both amounts, or when either is zero. */
  lemma VatSkippedWithoutAmounts(f: Fields)
    ensures f.totalAmount.None? || f.vatAmount.None? || f.totalAmount == Some(0) || f.vatAmount == Some(0)
            ==> VatRule(f).None?
  {
  }

  /** "Invalid or missing TRN" is reported exactly when the text holds no `100`
      followed by ten digits. */
  lemma InvalidTrnIffNoRun(text: string)
    ensures TrnRule(Extract(text)).Some? <==> !HasTrnRun(text)
  {
  }

  /** The label, currency and informational rules do not see letter case. */
  lemma KeywordRulesIgnoreCase(a: string, b: string)
    requires Lower(a) == Lower(b)
    ensures LabelRule(a) == LabelRule(b) && CurrencyRule(a) == CurrencyRule(b)
    ensures ReverseChargeRule(a) == ReverseChargeRule(b) && DiscountRule(a) == DiscountRule(b)
  {
  }

  const NoFields := Fields(None, None, None, None, None, None, None, None)

  /** On an empty text no pattern matches. */
  lemma EmptyTextHasNoFields()
    ensures Extract("") == NoFields
  {
    assert !HasTrnRun("");
    assert InvoiceNoAt("", 0).None? && LooseDateAt("", 0).None? && AppRateAt("", 0).None?;
    assert TotalAt("", 0).None? && VatAt("", 0).None?;
    assert SupplierAt("", 0).None? && CustomerAt("", 0).None?;
  }

  /** The fired rules on an empty text. */
  lemma EmptyTextOutcome(today: Date)
    ensures Evaluate("", NoFields, today)
            == Outcome(NotApproved, [MissingLabel, InvalidTrn, NumberMissing, DateMissing, NotAed])
  {
    assert !ContainsIgnoreCase("", "tax invoice");
    assert !ContainsIgnoreCase("", "aed");
    assert !ContainsIgnoreCase("", "reverse charge");
    assert !ContainsIgnoreCase("", "discount");
    var cs := Checks("", NoFields, today);
    RemarksInRuleOrder("", NoFields, today);
    var hard := [Some(MissingLabel), Some(InvalidTrn), Some(NumberMissing), Some(DateMissing), None, Some(NotAed)];
    assert cs[..6] == hard;
    assert cs[6..] == [None, None];
    assert hard[..1][..0] == [] && hard[..2][..1] == hard[..1] && hard[..3][..2] == hard[..2];
    assert hard[..4][..3] == hard[..3] && hard[..5][..4] == hard[..4] && hard[..5] == hard[..|hard| - 1];
    assert Somes(hard[..1]) == [MissingLabel];
    assert Somes(hard[..2]) == [MissingLabel, InvalidTrn];
    assert Somes(hard[..3]) == [MissingLabel, InvalidTrn, NumberMissing];
    assert Somes(hard[..4]) == [MissingLabel, InvalidTrn, NumberMissing, DateMissing];
    assert Somes(hard[..5]) == [MissingLabel, InvalidTrn, NumberMissing, DateMissing];
    assert Somes(cs[6..]) == [];
    assert cs[0].Some? && cs[0].value.hard;
  }

  /** A page with no text fails five hard rules, reported in rule order; only
      the VAT rule stays silent, because no amount was found. */
  lemma EmptyTextFails(path: string, today: Date)
    ensures var r := ValidateInvoice(path, "", today);
            && r.status == "Not Approved"
            && r.remarks == Join(["Missing 'Tax Invoice' label", "Invalid or missing TRN", "Invoice number missing",
                                  "Invoice date missing", "Amounts not in AED"], ", ")
  {
    EmptyTextHasNoFields();
    EmptyTextOutcome(today);
    var remarks := [MissingLabel, InvalidTrn, NumberMissing, DateMissing, NotAed];
    assert Messages(remarks) == ["Missing 'Tax Invoice' label", "Invalid or missing TRN", "Invoice number missing",
                                 "Invoice date missing", "Amounts not in AED"];
  }

  /** The "File" column is the last path component. */
  lemma FileNameIsLastComponent(dir: string, name: string)
    requires '/' !in name
    ensures FileName(dir + "/" + name) == name
  {
    SplitLast(dir, name, '/');
  }

  /** `Total Amount: AED 1050.00` at the head of the text, in any letter case,
      is read back as the total. */
  lemma TotalReadBack(shown: string, h: Fils, tail: string)
    requires shown == "Total" || shown == "TOTAL" || shown == "total"
    requires |tail| == 0 || !IsDigit(tail[0])
    ensures Extract(shown + " Amount: AED " + TwoDecimals(h) + tail).totalAmount == Some(h)
  {
    var text := shown + " Amount: AED " + TwoDecimals(h) + tail;
    LabelledAmountReads(shown, "total", h, tail);
    SearchAtStart(text, TotalAt);
  }

  /** `VAT Amount: AED 52.50` at the head of the text, in any letter case,
      is read back as the VAT amount. */
  lemma VatReadBack(shown: string, h: Fils, tail: string)
    requires shown == "VAT" || shown == "Vat" || shown == "vat"
    requires |tail| == 0 || !IsDigit(tail[0])
    ensures Extract(shown + " Amount: AED " + TwoDecimals(h) + tail).vatAmount == Some(h)
  {
    var text := shown + " Amount: AED " + TwoDecimals(h) + tail;
    LabelledAmountReads(shown, "vat", h, tail);
    SearchAtStart(text, VatAt);
  }

  /** `Invoice No: A12` at the head of the text is read back as the invoice
      number `A12`. */
  lemma InvoiceNumberReadBack(w: string, tail: string)
    requires |w| > 0 && forall k :: 0 <= k < |w| ==> IsWordChar(w[k])
    requires |tail| == 0 || !IsWordChar(tail[0])
    ensures Extract("Invoice No: " + w + tail).invoiceNumber == Some(w)
  {
    var text := "Invoice No: " + w + tail;
    InvoiceNoReads(w, tail);
    SearchAtStart(text, InvoiceNoAt);
    forall k | 0 <= k < |w|
      ensures !IsSpace(w[k])
    {
      WordCharNotSpace(w[k]);
    }
    LastWordAfterSpace("Invoice No: ", w);
  }

  /** `Supplier: Acme LLC` at the head of the text, in any letter case, fills
      the supplier with the name, when what follows the name is outside the
      class of name characters. */
  lemma SupplierReadBack(shown: string, v: string, tail: string)
    requires shown == "Supplier" || shown == "SUPPLIER" || shown == "supplier"
    requires |v| > 0 && !IsSpace(v[0]) && !IsSpace(v[|v| - 1])
    requires forall k :: 0 <= k < |v| ==> IsPartyChar(v[k])
    requires |tail| == 0 || !IsPartyChar(tail[0])
    ensures Extract(shown + ": " + v + tail).supplier == Some(v)
  {
    var text := shown + ": " + v + tail;
    PartyReads(shown, "supplier", v, tail);
    SearchAtStart(text, SupplierAt);
  }

  /** `Customer: Beta Trading` at the head of the text, in any letter case,
      fills the customer the same way. */
  lemma CustomerReadBack(shown: string, v: string, tail: string)
    requires shown == "Customer" || shown == "CUSTOMER" || shown == "customer"
    requires |v| > 0 && !IsSpace(v[0]) && !IsSpace(v[|v| - 1])
    requires forall k :: 0 <= k < |v| ==> IsPartyChar(v[k])
    requires |tail| == 0 || !IsPartyChar(tail[0])
    ensures Extract(shown + ": " + v + tail).customer == Some(v)
  {
    var text := shown + ": " + v + tail;
    PartyReads(shown, "customer", v, tail);
    SearchAtStart(text, CustomerAt);
  }

  /** A date such as `5/3/2024` after text with no digit, and standing between
      word boundaries, is read as the invoice date. */
  lemma InvoiceDateReadBack(pre: string, d: DateText, tail: string)
    requires d.Shaped(1, 2)
    requires forall k :: 0 <= k < |pre| ==> !IsDigit(pre[k])
    requires |pre| == 0 || !IsWordChar(pre[|pre| - 1])
    requires |tail| == 0 || !IsWordChar(tail[0])
    ensures Extract(pre + d.Text() + tail).invoiceDate == Some(d)
  {
    LooseDateReads(pre, d, tail);
  }
}
