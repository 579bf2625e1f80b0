/** The short validator of the upload app (`fta_vali.py`): five fields are
    pulled out of the invoice text with one pattern each, then four rules run
    in order (TRN, VAT rate, VAT against total, date). Every rule that fires
    fails the invoice. */
module SimpleValidator {
  import opened Wrappers
  import opened Text
  import opened Calendar
  import opened Money
  import opened Patterns
  import opened Rules

  /** The fields `validate_invoice` extracts; `None` where a pattern did not match. */
  datatype Fields = Fields(
    trn: Option<string>,
    vatRate: Option<string>,
    vatAmount: Option<Fils>,
    totalAmount: Option<Fils>,
    invoiceDate: Option<DateText>)

  /** What the extractor guarantees about the fields it returns. */
  predicate WellFormed(f: Fields)
  {
    && (f.trn.Some? ==> IsTrn(f.trn.value))
    && (f.vatRate.Some? ==> f.vatRate.value == "5%" || (|f.vatRate.value| == 3 && f.vatRate.value[0] == '5'
                                                        && IsSpace(f.vatRate.value[1]) && f.vatRate.value[2] == '%'))
    && (f.invoiceDate.Some? ==> f.invoiceDate.value.Shaped(2, 4))
  }

  /** `\b5\s?%` */
  function FiveRateAt(s: string, i: nat): Option<string>
  {
    RateAt(s, i, '5')
  }

  /** `VAT\s*[:=]?\s*AED?\s*(\d+(\.\d{2})?)` */
  function VatAmountAt(s: string, i: nat): Option<Fils>
  {
    StrictAmountAt(s, i, "VAT")
  }

  /** `Total\s*[:=]?\s*AED?\s*(\d+(\.\d{2})?)` */
  function TotalAmountAt(s: string, i: nat): Option<Fils>
  {
    StrictAmountAt(s, i, "Total")
  }

  /** The extraction half of `validate_invoice`, on the text of the PDF. */
  function Extract(text: string): (f: Fields)
    ensures WellFormed(f)
    ensures f.trn.None? <==> !HasTrnRun(text)
  {
    var rate := Search(text, FiveRateAt);
    var date := Search(text, FixedDateAt);
    Fields(FindTrn(text), rate, Search(text, VatAmountAt), Search(text, TotalAmountAt), date)
  }

  const InvalidTrn := Remark("Invalid TRN", true)
  const VatIncorrect := Remark("VAT incorrect", true)
  const VatMismatch := Remark("VAT mismatch", true)
  const FutureDate := Remark("Future date", true)
  const InvalidDate := Remark("Invalid date format", true)

  /** `if not trn or not re.match(r'^100\d{10}$', trn)` */
  function TrnRule(f: Fields): Option<Remark>
  {
    FiresIf(f.trn.None? || !IsTrn(f.trn.value), InvalidTrn)
  }

  /** `if vat_rate != "5%" and vat_rate != "5"` */
  function RateRule(f: Fields): Option<Remark>
  {
    FiresIf(f.vatRate != Some("5%") && f.vatRate != Some("5"), VatIncorrect)
  }

  function RealAbs(x: real): real
  {
    if x < 0.0 then -x else x
  }

  /** `abs(vat_amount - (total_amount * 0.05)) > 0.5`, only when both amounts
      were found, computed exactly. In fils this is `|20 * vat - total| > 1000`. */
  function MismatchRule(f: Fields): (r: Option<Remark>)
    ensures r.Some? <==> f.vatAmount.Some? && f.totalAmount.Some?
                         && Abs(20 * f.vatAmount.value - f.totalAmount.value) > 1000
  {
    if f.vatAmount.Some? && f.totalAmount.Some? then
      var vat := f.vatAmount.value as real / 100.0;
      var total := f.totalAmount.value as real / 100.0;
      FiresIf(RealAbs(vat - total * 0.05) > 0.5, VatMismatch)
    else None
  }

  /** The date block: nothing when no date was found; otherwise
      `strptime(invoice_date, "%d-%m-%Y")`, with "Invalid date format" when it
      raises and "Future date" when the date lies after today. (The matched
      text is never empty, so `if invoice_date:` only tests presence.) */
  function DateRule(f: Fields, today: Date): Option<Remark>
  {
    match f.invoiceDate
    case None => None
    case Some(d) =>
      match Strptime(d.Text(), DayMonthYear('-'))
      case None => Some(InvalidDate)
      case Some(date) => FiresIf(IsAfter(date, today), FutureDate)
  }

  /** The four rules, in source order. */
  function Checks(f: Fields, today: Date): seq<Option<Remark>>
  {
    [TrnRule(f), RateRule(f), MismatchRule(f), DateRule(f, today)]
  }

  function Evaluate(f: Fields, today: Date): Outcome
  {
    Run(Checks(f, today))
  }

  /** The dictionary `validate_invoice` returns. */
  datatype InvoiceResult = InvoiceResult(
    name: string,
    trn: Option<string>,
    vatRate: Option<string>,
    vatAmount: Option<Fils>,
    totalAmount: Option<Fils>,
    invoiceDate: Option<string>,
    status: string,
    remarks: string)

  /** `', '.join(remarks) if remarks else 'All checks passed'` */
  function RemarksText(o: Outcome): string
  {
    if |o.remarks| == 0 then "All checks passed" else Join(Messages(o.remarks), ", ")
  }

  /** `validate_invoice(pdf_file)` on the file's name and extracted text;
      `today` is the date of `datetime.now()`. */
  function ValidateInvoice(name: string, text: string, today: Date): InvoiceResult
  {
    var f := Extract(text);
    var o := Evaluate(f, today);
    InvoiceResult(name, f.trn, f.vatRate, f.vatAmount, f.totalAmount,
                  if f.invoiceDate.Some? then Some(f.invoiceDate.value.Text()) else None,
                  StatusText(o.status), RemarksText(o))
  }

  // ---------------------------------------------------------------------------
  // Properties

  /** Every remark sets "Not Approved", so the invoice is approved exactly when
      no remark was made; the remarks column then reads "All checks passed". */
  lemma ApprovedIffNoRemarks(f: Fields, today: Date)
    ensures var o := Evaluate(f, today);
            (o.status == Approved <==> |o.remarks| == 0)
            && (o.status == Approved <==> RemarksText(o) == "All checks passed")
  {
    var cs := Checks(f, today);
    SomesEmpty(cs);
    var o := Evaluate(f, today);
    if |o.remarks| > 0 {
      var k :| 0 <= k < |cs| && cs[k].Some?;
      assert cs[k].value.hard;
      SomesSound(cs);
      var j :| 0 <= j < |cs| && cs[j] == Some(o.remarks[0]);
      assert o.remarks[0] in {InvalidTrn, VatIncorrect, VatMismatch, FutureDate, InvalidDate};
      JoinHead(Messages(o.remarks), ", ");
      assert RemarksText(o)[0] != 'A';
    }
  }

  /** The remarks appear in the fixed order TRN, VAT rate, VAT mismatch, date,
      each at most once. */
  lemma RemarksInRuleOrder(f: Fields, today: Date)
    ensures Evaluate(f, today).remarks
            == (if TrnRule(f).Some? then [InvalidTrn] else [])
             + (if RateRule(f).Some? then [VatIncorrect] else [])
             + (if MismatchRule(f).Some? then [VatMismatch] else [])
             + (match DateRule(f, today) case Some(r) => [r] case None => [])
  {
    var cs := Checks(f, today);
    assert cs[..1][..0] == [];
    assert cs[..2][..1] == cs[..1];
    assert cs[..3][..2] == cs[..2];
    assert cs[..4][..3] == cs[..3];
    assert cs[..4] == cs;
    assert Somes(cs[..1]) == (if TrnRule(f).Some? then [InvalidTrn] else []);
    assert Somes(cs[..2]) == Somes(cs[..1]) + (if RateRule(f).Some? then [VatIncorrect] else []);
    assert Somes(cs[..3]) == Somes(cs[..2]) + (if MismatchRule(f).Some? then [VatMismatch] else []);
  }

  /** "Invalid TRN" is reported exactly when the text holds no `100` followed by
      ten digits: a TRN the extractor returns always passes the shape check. */
  lemma InvalidTrnIffNoRun(text: string, today: Date)
    ensures TrnRule(Extract(text)).Some? <==> !HasTrnRun(text)
  {
  }

  /** "VAT incorrect" is reported unless the first `5%`-like token of the text is
      exactly `5%`: a spaced `5 %` fails like a missing rate, and the `"5"`
      alternative of the check can never be met. */
  lemma RateRuleIffNotFivePercent(text: string)
    ensures RateRule(Extract(text)).Some? <==> Search(text, FiveRateAt) != Some("5%")
  {
    var f := Extract(text);
    assert f.vatRate == Search(text, FiveRateAt);
    if f.vatRate.Some? {
      assert f.vatRate.value != "5";
    }
  }

  /** The date outcomes: no date gives no remark; a date with two `-`
      separators that names a calendar day gives "Future date" exactly when it
      lies after today and nothing otherwise; anything else (a `/` separator,
      day 31 of April, year 0000) gives "Invalid date format". */
  lemma DateOutcomes(f: Fields, today: Date)
    requires WellFormed(f)
    ensures f.invoiceDate.None? ==> DateRule(f, today).None?
    ensures f.invoiceDate.Some? ==>
              var d := f.invoiceDate.value;
              var date := Date(DigitsValue(d.day), DigitsValue(d.month), DigitsValue(d.year));
              if d.sep1 == '-' && d.sep2 == '-' && IsValid(date)
              then DateRule(f, today) == (if IsAfter(date, today) then Some(FutureDate) else None)
              else DateRule(f, today) == Some(InvalidDate)
  {
    if f.invoiceDate.Some? {
      var d := f.invoiceDate.value;
      DigitGroupsParse(d.day, d.sep1, d.month, d.sep2, d.year, '-');
    }
  }

  /** `Total: AED 1050.00` at the head of the text is read back as the total. */
  lemma TotalReadBack(h: Fils, tail: string)
    requires |tail| == 0 || !IsDigit(tail[0])
    ensures Extract("Total: AED " + TwoDecimals(h) + tail).totalAmount == Some(h)
  {
    var text := "Total: AED " + TwoDecimals(h) + tail;
    assert "Total" + ": AED " == "Total: AED ";
    StrictAmountReads("Total", h, tail);
    SearchAtStart(text, TotalAmountAt);
  }

  /** `VAT: AED 52.50` at the head of the text is read back as the VAT amount. */
  lemma VatReadBack(h: Fils, tail: string)
    requires |tail| == 0 || !IsDigit(tail[0])
    ensures Extract("VAT: AED " + TwoDecimals(h) + tail).vatAmount == Some(h)
  {
    var text := "VAT: AED " + TwoDecimals(h) + tail;
    assert "VAT" + ": AED " == "VAT: AED ";
    StrictAmountReads("VAT", h, tail);
    SearchAtStart(text, VatAmountAt);
  }

  /** `5%` or `5 %` written at a word start is the rate token read there. */
  lemma RateShown(s: string, i: nat, shown: string)
    requires shown == "5%" || shown == "5 %"
    requires i + |shown| <= |s| && s[i..i + |shown|] == shown && WordStart(s, i)
    ensures FiveRateAt(s, i) == Some(shown)
  {
    assert s[i] == shown[0] && s[i + 1] == shown[1] && s[i + |shown| - 1] == shown[|shown| - 1];
  }

  /** The first rate token read is the one written first. */
  lemma FirstRate(pre: string, shown: string, post: string)
    requires '5' !in pre && (|pre| == 0 || !IsWordChar(pre[|pre| - 1]))
    requires shown == "5%" || shown == "5 %"
    ensures Extract(pre + shown + post).vatRate == Some(shown)
  {
    var s := pre + shown + post;
    var i := |pre|;
    assert s == pre + (shown + post);
    assert s[i..i + |shown|] == shown;
    assert i == 0 || s[i - 1] == pre[i - 1];
    RateShown(s, i, shown);
    forall q: nat | q < i
      ensures FiveRateAt(s, q).None?
    {
      assert s[q] == pre[q];
    }
    SearchPast(s, FiveRateAt, i);
  }

  /** `VAT 5%` passes the rate rule when it is the first rate token of the
      text. */
  lemma FivePercentPasses(pre: string, post: string)
    requires '5' !in pre && (|pre| == 0 || !IsWordChar(pre[|pre| - 1]))
    ensures RateRule(Extract(pre + "5%" + post)).None?
  {
    FirstRate(pre, "5%", post);
  }

  /** A spaced `5 %` in the same place fails it. */
  lemma SpacedRateFails(pre: string, post: string)
    requires '5' !in pre && (|pre| == 0 || !IsWordChar(pre[|pre| - 1]))
    ensures RateRule(Extract(pre + "5 %" + post)) == Some(VatIncorrect)
  {
    FirstRate(pre, "5 %", post);
  }

  /** A `DD-MM-YYYY` date after text with no digit that names a calendar day
      after today is reported as "Future date". */
  lemma FutureDateReported(pre: string, d: DateText, tail: string, today: Date)
    requires d.Shaped(2, 4) && |d.year| == 4 && d.sep1 == '-' && d.sep2 == '-'
    requires forall k :: 0 <= k < |pre| ==> !IsDigit(pre[k])
    requires var date := Date(DigitsValue(d.day), DigitsValue(d.month), DigitsValue(d.year));
             IsValid(date) && IsAfter(date, today)
    ensures DateRule(Extract(pre + d.Text() + tail), today) == Some(FutureDate)
  {
    FixedDateReads(pre, d, tail);
    DateOutcomes(Extract(pre + d.Text() + tail), today);
  }

  /** `Date: 01-01-2099` is a future date on any day before 2099. */
  lemma FutureDateExample(today: Date)
    requires today.year < 2099
    ensures DateRule(Extract("Date: 01-01-2099"), today) == Some(FutureDate)
  {
    var d := DateText("01", '-', "01", '-', "2099");
    assert d.Text() == "01-01-2099";
    assert "Date: " + d.Text() + "" == "Date: 01-01-2099";
    assert DigitsValue("0") == 0 && DigitsValue("01") == 1;
    assert "2099"[..3] == "209" && "209"[..2] == "20" && "20"[..1] == "2";
    assert DigitsValue("2") == 2 && DigitsValue("20") == 20 && DigitsValue("209") == 209 && DigitsValue("2099") == 2099;
    FutureDateReported("Date: ", d, "", today);
  }
}
