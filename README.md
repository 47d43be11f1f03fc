# FinanaceScript loader and vendor classifier in Dafny

FinanaceScript (`script.py`) reads a bank-statement CSV export in which two
layouts are concatenated. It turns the export into one table of
transactions, and then gives each transaction a vendor name derived from
its description. This project models that core and proves properties of it:

- **the loader** `clean_and_combine_data`. It reads the file line by line,
  skipping blank and header lines. Each line is split on commas. A probe
  switches the loop from the dual-column layout (debit and credit columns)
  to the single-amount layout, and the switch is never undone. Each data
  line is parsed in the layout in force, and the line numbers of lines that
  cannot be parsed are reported. If no line produced a record, the result
  is "no data". Otherwise, rows without a date or with a zero amount are
  dropped.
- **the vendor classifier** `get_smart_vendor`. It upper-cases the
  description and searches an ordered table of sixteen regular expressions.
  The first rule that matches wins. A rule gives either a fixed label or
  the text after a `SUMUP ** ` / `SQ *` marker, stripped and title-cased.
  A description that no rule matches is title-cased. Every fixed label,
  classified again, comes back unchanged (`LabelsAreStable`).
- **the composition** in the main flow. The program stops when the loader
  reports no data. Otherwise it adds a `Vendor` column by applying the
  classifier to every description.

Modules:

- `Wrappers` holds `Option`.
- `PyText` holds the Python string built-ins the code relies on: `strip`,
  `split`, `in`, `upper`, `title`, and the literal regular expressions.
- `Numbers` holds exact decimal amounts and the `float`/`to_numeric`
  subset of number parsing.
- `Dates` holds the ISO subset of `pd.to_datetime`, including `NaT` and
  its timestamp range.
- `LineParser` holds the loader. The line loop is a method,
  `CleanAndCombineData`, proved equal to the functional pass
  `CleanAndCombine`, and the properties are lemmas about that pass.
- `Vendor` holds the classifier.
- `Pipeline` holds the composition.
- `StatementExample` holds a worked example of the whole load.

Three behaviours of the code are easy to miss, and the model keeps them:

- `get_smart_vendor('')` returns `''`: no rule matches and the title-cased
  empty text is empty (`EmptyDescription`).
- A file whose parsed rows all have zero amounts loads as an empty table
  rather than as "no data", because the emptiness test at script.py:83
  comes before the filter at script.py:88-89 (`ZeroAmountsGiveEmptyTable`).
- `fillna('Uncategorized')` at script.py:90 never fires, because every
  category is a string field of the split line. The model has no
  missing-category case.

The module `StatementExample` proves what the load makes of a three-line
statement: a header line, a dual-column Amazon row and a single-amount Uber
row that switches the layout. It loads as two rows, with the vendors Amazon
and Uber and no failing line (`StatementTable`).

## Model

| member | source | states |
|---|---|---|
| PyText.Strip | script.py:37 | `strip()` leaves a result that neither starts nor ends with whitespace and is no longer than its input |
| PyText.StripCharacterized | script.py:37 | `strip()` removes exactly the whitespace at both ends: the input is whitespace, then the result, then whitespace |
| PyText.StripsToUnique | script.py:37 | that characterization has only one solution |
| PyText.StripEmptyIff | script.py:37 | `not line.strip()` holds exactly when the line is all whitespace |
| PyText.StripIdempotent | script.py:41 | stripping twice is stripping once |
| PyText.StripUnchanged | script.py:139 | a string without whitespace at either end is its own strip |
| PyText.Split | script.py:41 | `split(',')` gives one field more than there are commas, no field holds a comma, and joining the fields gives the line back |
| PyText.SplitJoin | script.py:41 | splitting a join of comma-free fields gives the same fields back |
| PyText.SplitUnique | script.py:41 | two comma-free field lists with the same join are equal |
| PyText.Upper | script.py:112 | `upper()` keeps the length and upper-cases each character on its own |
| PyText.UpperIdempotent | script.py:112 | upper-casing twice is upper-casing once |
| PyText.UpperUnchanged | script.py:112 | text without lower-case letters is its own upper-case form |
| PyText.Title | script.py:139 | `title()` upper-cases a letter at the start or after a non-letter and lower-cases every other letter |
| PyText.TitleFromAppend | script.py:143 | title-casing a concatenation title-cases the second part as if it followed the first part's last character |
| PyText.TitleOfUpper | script.py:143 | `title()` of the upper-cased text equals `title()` of the text |
| PyText.TitleKeepsLowerRun | script.py:143 | after a letter, `title()` leaves a run of lower-case letters unchanged |
| PyText.CapitalisedTitle | script.py:143 | `title()` leaves a word of one upper-case letter and then lower-case letters unchanged |
| PyText.TitledPhrase | script.py:143 | `title()` leaves a title-cased phrase unchanged when a space and a capitalised word are appended |
| PyText.UpperOfTitle | script.py:143 | upper-casing a title-cased text gives the upper-cased text back |
| PyText.TitleKeepsNonLetters | script.py:139 | `title()` keeps whitespace and line feeds where they were |
| PyText.FindFrom | script.py:135 | the leftmost occurrence of a literal at or after an index, or none at all |
| PyText.FindFromAgrees | script.py:37 | the search finds an occurrence exactly when the `in` test holds |
| PyText.ContainsHasChars | script.py:135 | each character of a literal that occurs in a text occurs in that text |
| PyText.TakeLine | script.py:125-126 | `.*` takes the longest prefix without a line feed, stopping only at a line feed or the end |
| PyText.MatchesThen | script.py:119-129 | the definition of `A.*B`: `A` occurs, and `B` occurs after it with no line feed between; `ThenNeedsFirst` and `ThenNeedsSecond` state that a match needs both texts |
| PyText.ThenNeedsFirst | script.py:119 | `A.*B` can match only where `A` occurs |
| PyText.ThenNeedsSecond | script.py:119-129 | `A.*B` can match only where `B` occurs |
| Numbers.ParseNumber | script.py:47-75 | the definition of `float` (lines 47 and 75) and `to_numeric` (lines 56-57) on a field, for plain decimal text with an optional sign and surrounding whitespace; its properties are `ParseFormat`, `ParseSigned` and `BlankIsNotANumber` |
| Numbers.ParseFormat | script.py:47 | the number text written for an amount parses back to the same amount |
| Numbers.ParseSigned | script.py:56-57 | a digit string with an optional minus sign parses to its value with that sign |
| Numbers.BlankIsNotANumber | script.py:56-59 | blank text is not a number, so an empty debit or credit column does not give the amount |
| Numbers.Decimal.Negate | script.py:59 | negating an amount keeps it zero exactly when it was zero |
| Dates.ParseDate | script.py:62 | a parsed date is a valid date within pandas' timestamp range, and the missing date `NaT` comes exactly from the missing-date spellings |
| Dates.ParseJoinedDate | script.py:62 | four, two and two digits joined by `-` that name a valid day parse as that day |
| Dates.ParseFormatDate | script.py:62 | every representable date survives being written as `YYYY-MM-DD` and read again |
| Dates.ValidDateBounds | script.py:62 | a representable date lies between the years 1677 and 2262 and has a real month and day |
| LineParser.CleanAndCombine | script.py:33-89 | the definition of the whole load: the line loop, "no data" when it built no record, else the filtered records, with the failing line numbers; its properties are `NoDataIffNothingParsed`, `LoadedTransactions`, `DiagnosedLines` and `ZeroAmountsGiveEmptyTable` |
| LineParser.Step | script.py:35-81 | the definition of one loop iteration: a skipped line changes nothing; a data line may switch the layout, then appends its record or its line number; its properties are `PassLayout`, `RecordOrigins` and `FailedLines` |
| LineParser.Read | script.py:37-51 | the definition of what one line amounts to: skipped when blank or holding the header marker, otherwise the probe's outcome and the row read in each layout; its properties are `ReadJoinedLine`, `ReadDualColumnFields` and `ReadSingleAmountFields` |
| LineParser.TripsSingleAmount | script.py:45-51 | the definition of the layout probe: field 3 reads as a number and the line has at most six fields; `ReadDualColumnFields` and `ReadSingleAmountFields` state its outcome on each layout |
| LineParser.ParseDualColumn | script.py:55-67 | the definition of a dual-column row: at least seven fields and a readable date, with fields 3, 4 and 7 as description, category and notes; its round trip is `ReadDualColumnFields` |
| LineParser.DualAmount | script.py:56-59 | the definition of the dual-column amount: the debit if numeric, else the negated credit, else 0; `DebitTakesPrecedence` states that a numeric debit decides it whatever the credit holds, and `ReadDualColumnFields` states the round trip through the debit or the negated credit |
| LineParser.ParseSingleAmount | script.py:69-77 | the definition of a single-amount row: at least five fields, a readable date and a numeric field 3; its round trip is `ReadSingleAmountFields` |
| LineParser.IsSkipped | script.py:37 | the definition of a skipped line: blank after stripping, or holding the header marker; `StripEmptyIff` states when the strip is empty |
| LineParser.Fields | script.py:41 | the definition of a line's fields: the stripped line split on commas; `ReadJoinedLine` states that a comma-joined line of comma-free fields splits back into those fields |
| LineParser.ToDatetime | script.py:62-72 | the definition of `pd.to_datetime` on one field: a date, `NaT`, or an error that drops the line; `ToDatetimeDateText` states that a written date reads back as itself |
| LineParser.PassOver | script.py:35-81 | the definition of the loop's state after a prefix of the lines: the layout flag, the records and the dropped line numbers; `PassLayout` states when the flag is single-amount |
| LineParser.Survives | script.py:88-89 | the definition of the row filter: a date and a non-zero amount; `DropMissingAndZero` states that the filter keeps exactly those rows |
| LineParser.CleanAndCombineData | script.py:33-89 | the line loop with its sticky layout flag hands back exactly `CleanAndCombine`: the filtered records, or none, and the failing line numbers |
| LineParser.PassPrefixStep | script.py:35-81 | the loop's state after one more line is one more step from the state before it |
| LineParser.PassLayout | script.py:45-51 | the layout flag after `n` lines is single-amount exactly when some data line so far tripped the probe |
| LineParser.LayoutSticky | script.py:48-49 | once the loop is in the single-amount layout it stays there |
| LineParser.TrippingLineReadAsSingleAmount | script.py:45-54 | the line that trips the probe, and every line after it, is read in the single-amount layout |
| LineParser.FailedLines | script.py:78-81 | the reported line numbers are exactly the 1-based numbers of the data lines that fail to parse, in increasing order |
| LineParser.RecordOrigins | script.py:53-77 | every record comes from a data line that yields it, and every data line that parses adds its record |
| LineParser.EveryDataLineAccounted | script.py:35-81 | each data line gives exactly one outcome: a record or a diagnostic |
| LineParser.PassExtends | script.py:61-81 | later lines only append records and diagnostics |
| LineParser.NoDataIffNothingParsed | script.py:83-85 | the loader reports no data exactly when no line of the file parses |
| LineParser.LoadedTransactions | script.py:87-89 | the loaded rows are exactly the rows some line yields that have a date and a non-zero amount |
| LineParser.DiagnosedLines | script.py:78-81 | the failures of the whole file are reported as the failing lines' numbers, in order |
| LineParser.ZeroAmountsGiveEmptyTable | script.py:83-89 | a file whose rows all have zero amounts loads as an empty table, not as no data |
| LineParser.DropMissingAndZero | script.py:88-89 | the filter keeps exactly the rows with a date and a non-zero amount, and never adds a row |
| LineParser.DropAppend | script.py:88-89 | the filter works row by row and keeps the rows' order |
| LineParser.DropKeepsSurvivors | script.py:88-89 | rows that all survive the filter pass through unchanged |
| LineParser.DropNoneSurvive | script.py:88-89 | rows none of which survive leave nothing |
| LineParser.ToDatetimeDateText | script.py:62 | a date written as text, or the empty text for `NaT`, reads back as that date |
| LineParser.ReadDualColumnFields | script.py:54-67 | a transaction written in the dual-column layout reads back as itself, with the debit, or the negated credit, as the amount, and the row does not trip the probe |
| LineParser.DebitTakesPrecedence | script.py:55-59 | in a dual-column row with a readable date and a numeric debit, the amount is the debit, and replacing the credit field by any text leaves it unchanged |
| LineParser.ReadSingleAmountFields | script.py:69-77 | a transaction without notes written in the single-amount layout reads back as itself, and the row trips the probe |
| PyText.StripAround | script.py:37-41 | text with only whitespace around it, such as a line with its line feed, strips to the text itself |
| LineParser.ReadJoinedLine | script.py:37-41 | a comma-joined line of comma-free fields, with whitespace such as its line feed around it and no header marker, is a data line whose fields are exactly those fields |
| Vendor.GetSmartVendor | script.py:101-143 | the definition of `get_smart_vendor`: classify the upper-cased description; its properties are `IgnoresCase`, `AmazonAlwaysWins`, `ShortFallsBack` and `EmptyDescription` |
| Vendor.Classify | script.py:134-143 | the definition of the scan: the first matching rule's label or capture, else the title-cased text; its properties are `FirstMatchWins` and `NoMatchFallsBack` |
| Vendor.Apply | script.py:136-140 | the definition of a matching rule's result: its fixed label, or the capture after its marker; `MarkerOpens` and `CaptureAtStart` state the capture case |
| Vendor.RuleAt | script.py:115-132 | the definition of the sixteen rows of the rule table, in the source's order; `NeedsFour` and `Lacking` state what each row needs |
| Vendor.PatternMatches | script.py:116-131 | the definition of a pattern matching: one of its alternatives occurs, or its first text occurs followed on the same line by its second; `MatchNeedsPiece` states what a match needs |
| Vendor.RuleMatches | script.py:135 | the definition of `re.search` on one row of the table; `MatchNeedsPiece` and `Lacking` state when a row cannot match |
| Vendor.Capture | script.py:139 | a captured vendor holds no line feed and neither starts nor ends with whitespace |
| Vendor.FirstMatch | script.py:134-140 | the scan stops at the first rule that matches, having passed over only rules that do not, or runs out when none matches |
| Vendor.FirstMatchWins | script.py:134-140 | the first matching rule decides the vendor, whatever later rules would say |
| Vendor.NoMatchFallsBack | script.py:142-143 | with no matching rule the vendor is the title-cased description |
| Vendor.IgnoresCase | script.py:112 | descriptions that differ only in case get the same vendor |
| Vendor.UpperCaseInput | script.py:112 | classifying the upper-cased description gives the same vendor |
| Vendor.FallbackIsStable | script.py:143 | a fallback vendor is title-cased, and classifying it again gives it back |
| Vendor.MatchNeedsPiece | script.py:115-135 | a rule can match only where one of the literals it needs occurs |
| Vendor.Lacking | script.py:115-135 | a rule each of whose needed literals has a character missing from the description cannot match |
| Vendor.MarkerOpens | script.py:125-126 | a capture rule whose marker opens the description matches and captures the rest of its line |
| Vendor.CaptureAtStart | script.py:125-126 | a capture rule whose marker opens the text matches it and takes the rest of the text after the marker |
| Vendor.AmazonAlwaysWins | script.py:116 | any description containing `AMAZON` or `AMZN`, in any case, is Amazon |
| Vendor.NeedsFour | script.py:115-132 | every literal a rule needs has at least four characters |
| Vendor.ShortFallsBack | script.py:134-143 | a description shorter than four characters matches no rule and is title-cased |
| Vendor.EmptyDescription | script.py:143 | an empty description has the empty vendor |
| Vendor.AmazonPrimeVideo | script.py:116 | `AMAZON PRIME VIDEO` is Amazon |
| Vendor.SquareUberEats | script.py:120-126 | `SQ *UBER EATS` is Uber: the `UBER` rule comes before the `SQ *` capture |
| Vendor.Tesco | script.py:112-117 | `Tesco` is Tesco, because the description is upper-cased first |
| Vendor.LabelsAreStable | script.py:115-143 | every fixed label of the table, given back as a description, is classified as that same label: nine through their own row, and `Circuit Laundry`, `Durham University`, `Capital One Payment` and `Bank Payment` through the title-cased fallback |
| Vendor.LabelAfterMisses | script.py:134-137 | a row whose first alternative occurs in the description, after all earlier rows miss, gives its label |
| Vendor.ThenAt | script.py:119-129 | an `A.*B` row matches when its two texts occur in order with no line feed between |
| Vendor.Missing | script.py:115-135 | a row none of whose needed texts occurs in the description cannot match |
| Vendor.AbsentPair | script.py:115-135 | a text cannot occur where two of its adjacent characters never stand next to each other |
| Vendor.FallbackLabel | script.py:142-143 | a label no row matches and that `title()` leaves alone is classified as itself |
| Vendor.UpperText | script.py:112 | `upper()` of a text, given character by character |
| Vendor.AmazonLabel | script.py:116 | `Amazon` is Amazon |
| Vendor.EbayLabel | script.py:116-118 | `eBay` is eBay, once the first two rows miss |
| Vendor.GoogleLabel | script.py:116-119 | `Google YouTube Premium` is Google YouTube Premium, through the `GOOGLE.*YOUTUBE` row |
| Vendor.UberLabel | script.py:116-120 | `Uber` is Uber |
| Vendor.StarbucksLabel | script.py:116-121 | `Starbucks` is Starbucks |
| Vendor.PandaExpressLabel | script.py:116-122 | `Panda Express` is Panda Express |
| Vendor.SafewayLabel | script.py:116-123 | `Safeway` is Safeway |
| Vendor.TimHortonsLabel | script.py:116-127 | `Tim Hortons` is Tim Hortons, after ten rows and both capture markers miss |
| Vendor.CashBackLabel | script.py:116-131 | `Cash Back / Rewards` is Cash Back / Rewards, after all fifteen earlier rows miss |
| Vendor.CircuitLaundryLabel | script.py:115-143 | `Circuit Laundry` matches no row (not `CIRCUIT GO`) and title-cases to itself |
| Vendor.DurhamLabel | script.py:115-143 | `Durham University` matches no row (not `DURHAM STUDENTS`) and title-cases to itself |
| Vendor.CapitalOneLabel | script.py:115-143 | `Capital One Payment` matches no row (no `PYMT`) and title-cases to itself |
| Vendor.BankPaymentLabel | script.py:115-143 | `Bank Payment` matches no row and title-cases to itself |
| Vendor.SumUpJoesCoffee | script.py:125-139 | `SUMUP ** JOES COFFEE` is `Joes Coffee`, the text after the marker, stripped and title-cased |
| Vendor.CapturedAfterNineMisses | script.py:116-125 | a description that the first nine rules do not match and that opens with `SUMUP ** ` gets the capture of what follows the marker |
| Vendor.UberAfterFourMisses | script.py:116-120 | a description containing `UBER` and none of `Z`, `O`, `Y` or `G` (one letter that each of the first four rules needs) is Uber |
| Pipeline.WithVendors | script.py:264 | the `Vendor` column gives each row the classifier's vendor for its own description, keeping rows and order |
| Pipeline.VendorsOnlyAddAColumn | script.py:264 | adding the column changes no other column, no row and no order |
| Pipeline.SameVendorIgnoringCase | script.py:264 | rows whose descriptions differ only in case are grouped under the same vendor |
| Pipeline.AmazonRowsGrouped | script.py:264 | every row mentioning `AMAZON` or `AMZN` is grouped under Amazon |
| Pipeline.LoadTable | script.py:257-264 | the definition of the main flow up to the `Vendor` column: stop when the loader reports no data, else add the column; its properties are `LoadedTable` and `StatementTable` |
| Pipeline.LoadedTable | script.py:257-264 | the program goes on exactly when some line parses, and then every row is a surviving record of some line, labelled with its description's vendor |
| StatementExample.PointNumber | script.py:47-57 | digits, a point and digits read as the amount they spell, scaled by the digits after the point |
| StatementExample.January2024 | script.py:62 | `2024-01-0d` reads as that day of January 2024 |
| StatementExample.HeaderSkipped | script.py:37-38 | the statement's header line carries the header marker and is skipped |
| StatementExample.ReadDataLine | script.py:37-41 | a comma-joined data line with its line feed and no header marker is read as its own fields |
| StatementExample.DualColumnRow | script.py:45-67 | eight fields with a date and a numeric debit do not trip the probe and read as a dual-column row with that debit as amount |
| StatementExample.SingleAmountRow | script.py:45-77 | five fields with a date and a number in field 3 trip the probe and read as a single-amount row |
| StatementExample.PassOfThree | script.py:35-81 | a header, a dual-column row and a probe-tripping row leave the loop in the single-amount layout with both records and no failures |
| StatementExample.StatementLoads | script.py:33-89 | the example statement loads as its Amazon and Uber transactions with no failing line |
| StatementExample.AmazonVendor | script.py:116 | `AMAZON MKTPLACE` is Amazon |
| StatementExample.UberVendor | script.py:120 | `UBER TRIP` is Uber |
| StatementExample.StatementTable | script.py:257-264 | the example statement becomes two rows, vendors Amazon and Uber, in file order, with no failing line |

## Left out

- File I/O and console output. The file's lines are a parameter, and the
  warnings, error messages and progress prints are not modelled; the
  failing line numbers stand for the per-line warnings.
- `FileNotFoundError` and the catch-all handler (script.py:94-99) are not
  modelled. No failure of the line loop other than a parse failure of one
  line can occur in the model.
- Numbers.ParseNumber: accepts plain decimal text only (an optional sign,
  digits and one optional point). Python's `float` and pandas'
  `to_numeric` also accept exponents, `inf`, `nan` and underscores; those
  spellings read as "not a number" in the model.
- Floating point is not modelled. Amounts are exact decimals, so there is
  no rounding, no `NaN` amount, and `dropna` on the amount never removes a
  row.
- Dates.ParseDate: accepts only `YYYY-MM-DD` (with surrounding whitespace)
  and the missing-date spellings. The many other formats `pd.to_datetime`
  guesses read as unparseable, so such a line fails in the model.
- The `fillna('Uncategorized')` step (script.py:90) is not modelled,
  because with string fields it never changes anything.
- Case mapping covers ASCII letters only; the Unicode case tables of
  `upper()` and `title()` are not modelled.
- `str(description)` of a non-string value, such as `NaN` becoming `NAN`,
  is not modelled. Descriptions are always strings here.
- The regular-expression engine is not modelled. Each of the table's
  patterns is stated directly as a predicate: an alternation of literals,
  `A.*B`, or a marker followed by a `(.*)` capture. `.` does not match a
  line feed.
- The report, CSV export, chart and search functions (script.py:145-246)
  and the menu loop of `main` (script.py:267-289) are not part of this
  model.
