# FTA invoice validation, modelled in Dafny

The repository has three small Python tools. Each checks invoices against the
UAE Federal Tax Authority rules:

- `fta_vali.py` is a Streamlit upload app. It reads the text of each PDF and
  extracts five fields: TRN, VAT rate, VAT amount, total and date. Four rules
  then run, and each one that fires fails the invoice. Results are kept in
  batches in the session. A batch can be deleted, all batches can be cleared,
  and everything can be exported as one table with a `Batch_ID` column.
- `fta_validator_app.py` is a longer validator. It extracts eight fields
  (TRN, invoice number, date, rate, total, VAT, supplier, customer). It
  classes the invoice as simplified or full, and runs eight rules. Six rules
  are hard and fail the invoice. Two rules (reverse charge, discount) only
  add a remark.
- `ftaipynb.py` has `validate_fta_fields`. It takes the JSON object that a
  language model extracted from an invoice. Each of the eight `FTA_FIELDS`
  must be present and truthy. TRN fields must hold 15 digits, date fields
  must be valid dates, and amount fields must be non-negative numbers. The
  verdict is written back under `"FTA Status"`.

The shared modules are:

- `Text`: character classes, `str.strip`, `split` and `join`, integer printing.
- `Money`: amounts in fils (hundredths of a dirham), exact 5%, `float()` on
  decimal text, and `repr` of an amount.
- `Calendar`: Gregorian dates with leap years, the `%d`/`%m`/`%Y` subset of
  `strptime`, and "after today".
- `Patterns`: each regular expression as a scanner at one position, plus the
  leftmost search that `re.search` performs.
- `Rules`: the remark list and status that the `if` blocks build.

The three tools are modelled by `SimpleValidator`, `AppValidator` and
`FieldValidator`. `Batches` models the session store of the upload app.
Whatever the program reads from outside becomes a parameter:

- the PDF text;
- the file name or path;
- the date of `datetime.now()`, as `today`;
- the batch id that `uuid4` would make;
- the decoded JSON object.

Behaviour worth noting:

- `fta_validator_app.py` has no VAT-rate rule. It extracts the rate but never
  checks it.
- The TRN pattern is `100` followed by ten digits, 13 characters in all.
- The VAT tolerance is 0.5 AED, measured from `round(total * 0.05, 2)`.
- An empty text gives five hard remarks: label, TRN, invoice number, date
  and currency.
- The VAT rule is silent when an amount is missing or is zero, since zero is
  falsy in Python.
- Reverse charge is only reported and never fails the invoice.

Some behaviour is modelled exactly as written. The lemma named in each point
proves it:

- `AED?` in `fta_vali.py` makes only the `D` optional, so `AE` must appear.
  `VAT: 50.00` gives no amount (`Patterns.StrictAmountNeedsAE`).
- A spaced `5 %` is captured as written and then fails the `"5%"` comparison
  (`SimpleValidator.SpacedRateFails`).
- The `"5"` alternative of the rate check can never be met: the rule fires iff
  the first rate token is not exactly `5%`
  (`SimpleValidator.RateRuleIffNotFivePercent`).
- `\d+` stops at a thousands comma, so `Total: AED 1,050.00` reads as one
  dirham (`Patterns.WholeAmountReads`).
- A JSON `0` counts as a missing field (`FieldValidator.IntTrnIssue`,
  `FieldValidator.IntAmountIssue`).
- An amount given as text such as `"1,050.00"` is an invalid number
  (`FieldValidator.TextAmountIssue`).

## Model

| member | source | states |
|---|---|---|
| Text.Lower | fta_validator_app.py:50 | `lower()` keeps the length, leaves no upper-case ASCII letter, keeps every other character in place, and turns each upper-case letter into its lower-case partner |
| Text.LowerIdempotent | fta_validator_app.py:50 | lower-casing a lower-cased text changes nothing |
| Text.Strip | ftaipynb.py:71 | the result has no whitespace at either end and is the input with its leading and trailing whitespace cut off; text without whitespace at its ends is returned unchanged |
| Text.LastWord | fta_validator_app.py:32 | `split()[-1]` is a non-empty run of non-space characters that ends where the trailing whitespace begins and is preceded by whitespace or the start |
| Text.LastWordAfterSpace | fta_validator_app.py:32 | when a text ends with whitespace and then a word, `split()[-1]` is that word |
| Text.SplitJoin | fta_validator_app.py:100 | splitting on a separator undoes joining with it when no piece holds the separator |
| Text.SplitLast | fta_validator_app.py:100 | the last piece of `split("/")` is what follows the last separator |
| Text.SpanOfRun | fta_vali.py:44 | a greedy run such as `\d+` over characters of its class, followed by the end or by a character outside the class, takes exactly those characters |
| Text.NatToStringRoundTrip | ftaipynb.py:71 | `str(n)` is a non-empty digit string that reads back as `n` and has no leading zero unless `n` is 0 |
| Text.NatToStringLength | ftaipynb.py:74 | `str(n)` has exactly `w` digits iff `10^(w-1) <= n < 10^w` (for `w > 1`) |
| Money.FivePercent | fta_validator_app.py:80 | the expected VAT lies within half a fils of 5% of the total, and on a tie it is even (round half to even) |
| Money.FivePercentUnique | fta_validator_app.py:80 | no other whole number of fils meets that description |
| Money.ParseDecimal | ftaipynb.py:86-87 | `float(value)` on a decimal literal is negative only when the text starts with a minus sign |
| Money.ParseDecimalAccepts | ftaipynb.py:86-90 | `float(value)` succeeds iff the text is, after an optional sign, digits with at most one point and at least one digit; every other text raises |
| Money.IntParses | ftaipynb.py:85-87 | `float(str(i))` is `i` for every integer |
| Money.PointedParses | fta_validator_app.py:35-36 | digits, a point and digits read as the number they spell, scaled by the length of the fraction |
| Money.AmountReprParses | fta_validator_app.py:82 | the amount printed in the mismatch remark reads back as the amount itself |
| Calendar.DaysInMonth | fta_vali.py:72 | every month has 28 to 31 days, and 29 only for February of a leap year |
| Calendar.DayField | fta_vali.py:72 | `%d` yields only 1 to 31 |
| Calendar.MonthField | fta_vali.py:72 | `%m` yields only 1 to 12 |
| Calendar.YearField | fta_vali.py:72 | `%Y` yields only 0 to 9999 |
| Calendar.Strptime | fta_vali.py:72 | whenever `strptime` succeeds, the result is a real calendar day |
| Calendar.RenderParses | ftaipynb.py:78-84 | parsing a `DD/MM/YYYY` or `YYYY-MM-DD` text written from a valid date gives that date back |
| Calendar.SplitDigitGroups | fta_vali.py:72 | three digit groups split into exactly three pieces iff both separators are the expected one |
| Calendar.DigitGroupsParse | fta_vali.py:70-78 | a matched date parses iff both separators are `-`, day and month have at most two digits, the year has four and the day exists; the parsed value is the three numbers |
| Patterns.FirstHit | fta_vali.py:42 | the hit is at the first position from `from` where the pattern matches, or none matches up to the end |
| Patterns.Search | fta_vali.py:42-46 | `re.search` finds nothing iff no position matches; otherwise it returns the match at the leftmost matching position |
| Patterns.FindTrn | fta_vali.py:42 | the TRN found is a `100` plus ten digits taken from the text, and none is found iff the text holds no such run |
| Patterns.RateAt | fta_vali.py:43 | a rate matches at a position iff the digit stands there at a word start, followed by `%` or by one whitespace character and `%`; the match is those characters, copied from the text |
| Patterns.FixedDateAt | fta_vali.py:46 | a date matches at a position iff two digits, a separator, two digits, a separator and four digits stand there; the match is those ten characters, copied from the text |
| Patterns.FixedDateReads | fta_vali.py:46 | a fixed-shape date written after text without digits is the date that `re.search` returns, whatever follows it |
| Patterns.LooseDateAt | fta_validator_app.py:23 | a match has one or two digits for day and month, two to four for the year, and `-` or `/` separators |
| Patterns.LooseRunsFound | fta_validator_app.py:23 | every such digit pattern that starts at a word start and is not followed by a word character is matched there, with exactly those groups |
| Patterns.LooseDateIsDelimited | fta_validator_app.py:23 | a loose date starts at a word boundary, is copied from the text, and is not followed by a word character |
| Patterns.LooseDateReads | fta_validator_app.py:23 | a loose date written after text without digits that ends at a word boundary, and followed by a boundary, is the date that `re.search` returns |
| Patterns.AmountAt | fta_vali.py:44 | an amount is read exactly where a digit stands |
| Patterns.AmountRoundTrip | fta_vali.py:44-51 | an amount written with two decimals and followed by a non-digit reads back as the same number of fils |
| Patterns.WholeAmountReads | fta_vali.py:44 | a whole number followed by neither a digit nor a point and two digits reads as that many dirhams; a thousands comma ends the number |
| Patterns.StrictAmountAt | fta_vali.py:44-45 | a labelled amount matches only where its case-sensitive key is |
| Patterns.LabelledAmountAt | fta_validator_app.py:25-26 | a labelled amount matches only where its key is, ignoring letter case |
| Patterns.AmountAtShift | fta_vali.py:44 | the `(\d+(\.\d{2})?)` group reads the same amount whatever text stands before it |
| Patterns.StrictLands | fta_vali.py:44-45 | on `<key>: AED ` the optional `[:=]`, blanks and `AED?` are consumed and the amount group starts right after them |
| Patterns.StrictAmountReads | fta_vali.py:44-51 | `<key>: AED ` followed by an amount with two decimals and a non-digit reads back as that amount |
| Patterns.StrictAmountNeedsAE | fta_vali.py:44 | `<key>: ` followed directly by a digit gives no match, because the letters `AE` are required |
| Patterns.LabelledLands | fta_validator_app.py:25-26 | on `<label> Amount: AED ` the optional `Amount`, `[:=]` and `AED` groups are consumed and the amount group starts right after them |
| Patterns.LabelledAmountReads | fta_validator_app.py:25-36 | a label in any letter case, ` Amount: AED ` and an amount with two decimals followed by a non-digit reads back as that amount |
| Patterns.SearchAtStart | fta_vali.py:44-45 | when the pattern matches at the start of the text, `re.search` returns that match |
| Patterns.SearchPast | fta_vali.py:42-46 | a pattern that matches at a position and at no earlier one is what `re.search` returns |
| Patterns.InvoiceNoAt | fta_validator_app.py:22 | an invoice-number match starts with `invoice` in any case, is copied from the text, ends in a word character and is not followed by one, since `\w+` is greedy |
| Patterns.InvoiceNoFound | fta_validator_app.py:32 | the leftmost invoice-number match ends in a character that is not whitespace, so `split()[-1]` is defined |
| Patterns.InvoiceNoReads | fta_validator_app.py:22 | `Invoice No: <w>`, with `w` a word that the text does not continue, matches up to the end of `w` |
| Patterns.PartyAt | fta_validator_app.py:27-28 | a capture exists iff the key stands there in any case and is followed by a name character, or by `:` or `-` and a name character; it is a non-empty run of letters, digits, whitespace, `,` and `&` |
| Patterns.PartyRun | fta_validator_app.py:27 | the greedy `[A-Za-z0-9\s,&]+` run is copied from the text and stops at the end or at a character outside the class |
| Patterns.PartyReads | fta_validator_app.py:27-28 | `<key>: <v>` with the key in any case and `v` a run of name characters that the text does not continue captures `v` |
| Rules.Run | fta_vali.py:54-78 | the remarks are exactly the fired ones in rule order, and the status is "Not Approved" iff a hard rule fired |
| Rules.StatusMatchesRemarks | fta_validator_app.py:46-94 | "Not Approved" iff some recorded remark is hard; informational remarks never change the status |
| SimpleValidator.Extract | fta_vali.py:42-52 | the extracted TRN always has the TRN shape, the rate is `5%` or `5`, whitespace, `%`, the date has the fixed shape, and the TRN is missing iff the text has no TRN run |
| SimpleValidator.MismatchRule | fta_vali.py:65-68 | "VAT mismatch" fires iff both amounts were found and the VAT is more than 0.5 AED from 5% of the total, that is \|20·vat − total\| > 1000 fils |
| SimpleValidator.ApprovedIffNoRemarks | fta_vali.py:54-88 | approved iff no remark was made, iff the remarks column reads "All checks passed" |
| SimpleValidator.RemarksInRuleOrder | fta_vali.py:57-78 | the remarks are TRN, rate, mismatch and date, in that order, each at most once |
| SimpleValidator.InvalidTrnIffNoRun | fta_vali.py:57-59 | "Invalid TRN" iff the text holds no `100` followed by ten digits |
| SimpleValidator.RateRuleIffNotFivePercent | fta_vali.py:61-63 | "VAT incorrect" iff the first rate token is not exactly `5%` |
| SimpleValidator.FirstRate | fta_vali.py:43 | `5%` or `5 %` written at a word start, before any other `5`, is the rate token read |
| SimpleValidator.FivePercentPasses | fta_vali.py:61-63 | `5%` read that way passes the rate rule |
| SimpleValidator.SpacedRateFails | fta_vali.py:61-63 | `5 %` read that way fails the rate rule with "VAT incorrect" |
| SimpleValidator.DateOutcomes | fta_vali.py:70-78 | no date gives no remark; a `-`-separated real day gives "Future date" iff it is after today; every other matched date gives "Invalid date format" |
| SimpleValidator.FutureDateReported | fta_vali.py:70-75 | a `DD-MM-YYYY` date written after text without digits that names a real day after today gives "Future date" |
| SimpleValidator.FutureDateExample | fta_vali.py:70-75 | `Date: 01-01-2099` gives "Future date" on every day before 2099 |
| SimpleValidator.TotalReadBack | fta_vali.py:45-51 | a text opening with `Total: AED ` and an amount with two decimals yields that amount as the total |
| SimpleValidator.VatReadBack | fta_vali.py:44-50 | a text opening with `VAT: AED ` and an amount with two decimals yields that amount as the VAT amount |
| AppValidator.InvoiceNumber | fta_validator_app.py:32 | there is an invoice number iff the pattern matched, and it is the last whitespace-free word of the match |
| AppValidator.LastWordOf | fta_validator_app.py:32 | `split()[-1]` of a match is a non-empty word without whitespace that ends the match and stands after whitespace or at its start |
| AppValidator.InvoiceNumberReadBack | fta_validator_app.py:32 | `Invoice No: A12` at the head of the text gives the invoice number `A12` |
| AppValidator.InvoiceDate | fta_validator_app.py:23 | the date is the leftmost loose-date match, with its shape |
| AppValidator.Extract | fta_validator_app.py:21-38 | TRN present iff a TRN run exists and always TRN-shaped; number present iff matched and free of whitespace; the date has the loose shape; the rate has no spaces |
| AppValidator.RemarksInRuleOrder | fta_validator_app.py:46-97 | the remarks are the fired hard remarks in rule order followed by the fired informational ones |
| AppValidator.ApprovedIffHardRulesPass | fta_validator_app.py:49-94 | approved iff none of the six hard rules (label, TRN, number, date, VAT, currency) fired |
| AppValidator.ApprovedRemarksAreInformational | fta_validator_app.py:90-97 | an approved invoice carries only reverse-charge and discount remarks |
| AppValidator.AllPassedIffNothingFired | fta_validator_app.py:96-111 | the remarks column is "All mandatory FTA checks passed" iff no rule fired |
| AppValidator.InvoiceTypeThreshold | fta_validator_app.py:41-43 | simplified iff a total below 10000 AED was found, full iff a total of at least 10000 AED was found, none iff no total |
| AppValidator.DateOutcomes | fta_validator_app.py:64-76 | no date gives "Invoice date missing"; a `-`-separated date with a four-digit year naming a real day gives the future remark iff after today; any other gives "Invalid date format" |
| AppValidator.VatToleranceBounds | fta_validator_app.py:79-83 | with both amounts non-zero, a VAT within 49.5 fils of 5% of the total passes and one more than 50.5 fils away fails |
| AppValidator.VatSkippedWithoutAmounts | fta_validator_app.py:79 | a missing or zero amount silences the VAT rule |
| AppValidator.InvalidTrnIffNoRun | fta_validator_app.py:55-57 | "Invalid or missing TRN" iff the text holds no TRN run |
| AppValidator.KeywordRulesIgnoreCase | fta_validator_app.py:50-94 | texts equal up to letter case get the same label, currency, reverse-charge and discount verdicts |
| AppValidator.EmptyTextHasNoFields | fta_validator_app.py:21-38 | on an empty text every field is missing |
| AppValidator.EmptyTextOutcome | fta_validator_app.py:46-94 | an empty text fails the label, TRN, number, date and currency rules, in that order |
| AppValidator.EmptyTextFails | fta_validator_app.py:46-111 | an empty text is "Not Approved" with exactly those five messages joined by ", " |
| AppValidator.FileNameIsLastComponent | fta_validator_app.py:100 | the "File" column is the last path component |
| AppValidator.TotalReadBack | fta_validator_app.py:25-35 | a text opening with `Total Amount: AED ` (`Total`, `TOTAL` or `total`) and an amount with two decimals yields that amount as the total |
| AppValidator.VatReadBack | fta_validator_app.py:26-36 | a text opening with `VAT Amount: AED ` (`VAT`, `Vat` or `vat`) and an amount with two decimals yields that amount as the VAT amount |
| AppValidator.SupplierReadBack | fta_validator_app.py:37 | `Supplier: Acme LLC` at the head of the text, in any of three letter cases, gives the supplier `Acme LLC` when the name is not continued by a name character |
| AppValidator.CustomerReadBack | fta_validator_app.py:38 | the same for `Customer: ...` and the customer |
| AppValidator.InvoiceDateReadBack | fta_validator_app.py:33 | a date such as `5/3/2024` written after text without digits, between word boundaries, is the invoice date |
| FieldValidator.FieldIssue | ftaipynb.py:68-90 | every issue starts with the name of its field |
| FieldValidator.FieldChecksLocal | ftaipynb.py:67-90 | each field's outcome depends on that field's entry alone, whatever else the object holds |
| FieldValidator.Validated | ftaipynb.py:91-95 | the object gains "FTA Status" holding the status line, and every other entry is left as it was |
| FieldValidator.ValidateFtaFields | ftaipynb.py:65-95 | the loop collects exactly the issues of the fields in order and writes the status line of `Validated` |
| FieldValidator.ApprovedIffEveryFieldPasses | ftaipynb.py:91-94 | the status is "✅ Approved" iff every one of the eight fields passes |
| FieldValidator.RevalidationIsStable | ftaipynb.py:91-95 | validating an already validated object gives the same object, since "FTA Status" is not a checked field |
| FieldValidator.FieldKinds | ftaipynb.py:72-85 | the two TRN fields get the 15-digit check, "Invoice Date" the date check, the two amounts the number check, and the other three only the presence check |
| FieldValidator.RawOutputReportsAllMissing | ftaipynb.py:67-69 | for the `{"raw_output": ...}` fallback, the issues are all eight fields reported missing, in order |
| FieldValidator.IntTextIsStripped | ftaipynb.py:71 | a printed integer has no whitespace to strip |
| FieldValidator.IntTrnText | ftaipynb.py:74 | a non-zero integer prints as 15 digits iff it lies in `[10^14, 10^15)` |
| FieldValidator.IntTrnIssue | ftaipynb.py:68-75 | a numeric TRN of 0 is missing, one in `[10^14, 10^15)` passes, and any other is invalid |
| FieldValidator.IntAmountIssue | ftaipynb.py:85-90 | a numeric amount of 0 is missing, a negative one "cannot be negative", and a positive one passes |
| FieldValidator.TextAmountIssue | ftaipynb.py:85-90 | a present amount is reported as an invalid number iff its stripped text is not a plain decimal literal |
| FieldValidator.AmountTextIsStripped | ftaipynb.py:71 | a printed amount, with or without a minus sign, has no whitespace to strip |
| FieldValidator.NegatedParse | ftaipynb.py:87 | a leading minus sign negates the value of the digits |
| FieldValidator.AmountReprSign | ftaipynb.py:87 | a printed amount reads back as a number that is never negative, and is zero only for zero fils |
| FieldValidator.AmountReprIssue | ftaipynb.py:85-90 | the amount check passes a printed amount and rejects its negation unless it is zero |
| FieldValidator.AmountTextIssue | ftaipynb.py:85-90 | an amount given as text like `1050.0` passes, and its negation is reported negative unless it is zero |
| FieldValidator.RenderedDateIsStripped | ftaipynb.py:71 | a rendered date has no whitespace to strip |
| FieldValidator.RenderedDatePasses | ftaipynb.py:76-84 | a valid date written as `DD/MM/YYYY` or `YYYY-MM-DD` passes the date check |
| Batches.Lookup | fta_vali.py:137 | a batch id has a value iff it is one of the store's keys |
| Batches.Replace | fta_vali.py:130 | re-assigning a key leaves the keys and their order unchanged |
| Batches.Pop | fta_vali.py:151 | after `pop(id, None)` the id is gone, and popping an absent id changes nothing |
| Batches.Clear | fta_vali.py:101 | after clearing, no batch id has a value |
| Batches.ExportAll | fta_vali.py:104-110 | the two loops of the export produce exactly the flattened table |
| Batches.ReplaceLookup | fta_vali.py:130 | re-assigning gives the key its new results and leaves every other key alone |
| Batches.PutSemantics | fta_vali.py:130 | after `batches[id] = results`, `id` maps to the results and every other key keeps its value; a new key goes last, and keys stay distinct |
| Batches.PopSemantics | fta_vali.py:151 | deleting removes `id`, leaves every other key's value alone, and keeps keys distinct |
| Batches.PopKeepsMembers | fta_vali.py:151 | deleting only removes batches |
| Batches.FlattenRows | fta_vali.py:104-110 | the export has one row per result, and each row comes from a batch of the store and carries that batch's id |
| Batches.PutNewAppendsRows | fta_vali.py:122-130 | a new batch's rows appear at the end of the export, tagged with the new id |
| Batches.PopRemovesRows | fta_vali.py:150-151 | after deleting a batch, the export is the old export without that batch's rows, in the same order |
| Batches.UploadAddsBatch | fta_vali.py:122-130 | an upload with files adds a batch with one result per file, named after it, in upload order; other batches are untouched; no files means no change |

## Left out

- Reading PDFs with pdfplumber, the Streamlit page (buttons, tables, colours, reruns), pandas and CSV/Excel output: I/O and UI. The modelled functions take the extracted text and return the result records.
- The language-model call and `json.loads` in `ftaipynb.py`: foreign code. `FieldValidator` starts from the decoded object. Its `{"raw_output": ...}` fallback is covered by `RawOutputReportsAllMissing`.
- FieldValidator.Validated, FieldValidator.ValidateFtaFields: take only a JSON object. When `json.loads` returns another top-level value, `validate_fta_fields` raises `TypeError`, and that path is not modelled. For a number, `true` or `null` it is raised by the `field not in invoice_dict` test (ftaipynb.py:68). For a list or a string it is raised by the item assignment (ftaipynb.py:92-94).
- `process_multiple_invoices` and the page code of `ftaipynb.py`: I/O around `validate_fta_fields`.
- The example run at the end of `fta_validator_app.py` (lines 114-124): a script over fixed file names.
- `uuid.uuid4()` and `datetime.now()`: the batch id and today's date are parameters. The time of day is dropped, because a parsed date is at midnight, so it lies after "now" iff it is a later calendar day.
- Floating point: amounts are exact fils.
  - `Money.FivePercent` rounds the exact 5% half to even.
  - SimpleValidator.MismatchRule, AppValidator.VatRule: never fire at a difference of exactly 0.5 AED. The source compares doubles with `> 0.5`, which there can fall on either side. For example, a total of 16.80 with VAT 1.34 gives `0.5000000000000001` in `fta_validator_app.py`, and a total of 11.20 with VAT 1.06 does the same in `fta_vali.py`. Both fire in the source but not in the model.
  - Python's `round(total * 0.05, 2)` acts on the binary float, so it can differ by one fils at an exact half-fils tie.
  - `Money.AmountRepr` prints like `repr` only below 2^46 AED (7036874417766400 fils). Above that a double no longer holds every hundredth, so `repr` can print a neighbouring value. From 10^16 AED on, `repr` also switches to exponent notation.
- Money.ParseDecimal: accepts only an optional sign, digits and at most one point. Python's `float()` also takes surrounding whitespace (already stripped here), exponents, `inf`, `nan` and underscores.
- Character classes are ASCII only, both in matching and in case:
  - `\w`, `\d` and `str.isdigit` use ASCII digits and letters only;
  - `lower()` and `re.IGNORECASE` fold ASCII letters only.
  Python also accepts other Unicode digits and letters. `\s` and `strip()` use Python's full whitespace set.
- A JSON value other than null, boolean, integer or string (a float, list or object) is modelled by its truthiness and its `str()` text, given as data.
- Patterns.LooseDateAt: its own contract states only the shape of the match. `LooseDateIsDelimited` states that a match is copied from the text between word boundaries, and `LooseRunsFound` that every such run is matched.
- No general regular-expression engine: each pattern the tools use is written out as a scanner. The order in which alternatives are tried and greedy runs backtrack is fixed by hand.
