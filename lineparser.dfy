/**
 * The ledger loader: a pass over the file's lines that skips blank and
 * header lines, splits the rest on commas, decides per line whether the
 * file has switched from the dual-column layout (separate debit and credit
 * fields) to the single-amount layout, extracts one transaction per line
 * or reports the line's number, and finally drops transactions without a
 * date or with a zero amount.
 *
 * `Read` gives what one line amounts to, `PassOver` folds the loop over
 * those readings and is the functional specification of the line loop,
 * and `CleanAndCombineData` is the loop itself.
 */
module LineParser {
  import opened Wrappers
  import opened PyText
  import opened Numbers
  import opened Dates

  /** One ledger row. `date` is `None` for pandas' missing date, `NaT`. */
  datatype Transaction = Transaction(
    date: Option<Date>,
    description: string,
    category: string,
    amount: Decimal,
    notes: string)

  /**
   * The layout the loop is in. The file starts in `DualColumn`; the only
   * transition is to `SingleAmount`, and it is never undone.
   */
  datatype Layout = DualColumn | SingleAmount

  /** Any line containing this text is a header. */
  const HeaderMarker := "Transaction Date"

  /** Blank lines and header lines produce neither a record nor a diagnostic. */
  predicate IsSkipped(line: string) {
    Strip(line) == [] || Contains(line, HeaderMarker)
  }

  /** `line.strip().split(',')`: no quoting, so every comma separates fields. */
  function Fields(line: string): seq<string> {
    Split(Strip(line), ',')
  }

  /**
   * The layout probe run on every data line: field 3 reads as a number and
   * the line has at most six fields. A line too short to have field 3 does
   * not trip it.
   */
  predicate TripsSingleAmount(fields: seq<string>) {
    |fields| > 3 && ParseNumber(fields[3]).Some? && |fields| <= 6
  }

  /** `pd.to_datetime(field)`: `None` where it raises, `Some(None)` for `NaT`. */
  function ToDatetime(field: string): Option<Option<Date>> {
    match ParseDate(field)
    case ParsedDate(d) => Some(Some(d))
    case NotATime => Some(None)
    case Unparseable => None
  }

  /**
   * The dual-column amount: the debit if it reads as a number, otherwise
   * the negated credit if that does, otherwise 0 (`to_numeric` with
   * `errors='coerce'` never raises).
   */
  function DualAmount(debit: string, credit: string): Decimal {
    match ParseNumber(debit)
    case Some(d) => d
    case None =>
      match ParseNumber(credit)
      case Some(c) => c.Negate()
      case None => Zero
  }

  /**
   * A dual-column row: date, -, -, description, category, debit, credit
   * and optional notes. `None` where Python raises: fewer than seven
   * fields, or a date pandas cannot read.
   */
  function ParseDualColumn(fields: seq<string>): Option<Transaction> {
    if |fields| < 7 then None
    else
      match ToDatetime(fields[0])
      case None => None
      case Some(date) =>
        Some(Transaction(date, fields[3], fields[4], DualAmount(fields[5], fields[6]),
                         if |fields| > 7 then fields[7] else ""))
  }

  /**
   * A single-amount row: date, -, description, amount, category; no notes.
   * `None` where Python raises: fewer than five fields, a date pandas
   * cannot read, or an amount `float` rejects.
   */
  function ParseSingleAmount(fields: seq<string>): Option<Transaction> {
    if |fields| < 5 then None
    else
      match ToDatetime(fields[0])
      case None => None
      case Some(date) =>
        match ParseNumber(fields[3])
        case None => None
        case Some(amount) => Some(Transaction(date, fields[2], fields[4], amount, ""))
  }

  /**
   * What one line of the file amounts to for the loop: a skipped line, or a
   * data line with the outcome of the layout probe and of reading it in
   * each of the two layouts.
   */
  datatype Reading =
    | Skipped
    | Data(tripsProbe: bool, asDualColumn: Option<Transaction>, asSingleAmount: Option<Transaction>)
  {
    /** The row this data line yields in `layout`; `None` where Python raises. */
    function In(layout: Layout): Option<Transaction>
      requires Data?
    {
      match layout
      case DualColumn => asDualColumn
      case SingleAmount => asSingleAmount
    }
  }

  function Read(line: string): Reading {
    if IsSkipped(line) then Skipped
    else
      var fields := Fields(line);
      Data(TripsSingleAmount(fields), ParseDualColumn(fields), ParseSingleAmount(fields))
  }

  function Readings(lines: seq<string>): seq<Reading> {
    seq(|lines|, k requires 0 <= k < |lines| => Read(lines[k]))
  }

  /** What the line loop has built after a prefix of the file. */
  datatype PassState = PassState(layout: Layout, records: seq<Transaction>, failed: seq<nat>)

  const Start := PassState(DualColumn, [], [])

  /**
   * One iteration of the line loop, for the line numbered `lineNo` (from 1):
   * the probe may switch the layout first, and the line is then read in the
   * layout now in force.
   */
  function Step(st: PassState, r: Reading, lineNo: nat): PassState {
    match r
    case Skipped => st
    case Data(trips, _, _) =>
      var layout := if trips then SingleAmount else st.layout;
      match r.In(layout)
      case Some(t) => PassState(layout, st.records + [t], st.failed)
      case None => PassState(layout, st.records, st.failed + [lineNo])
  }

  /** The line loop over the readings of a file. */
  function PassOver(rs: seq<Reading>): PassState
    decreases |rs|
  {
    if rs == [] then Start
    else Step(PassOver(rs[..|rs| - 1]), rs[|rs| - 1], |rs|)
  }

  function Pass(lines: seq<string>): PassState {
    PassOver(Readings(lines))
  }

  // ---------------------------------------------------------------------
  // The post-pass filter and the whole load
  // ---------------------------------------------------------------------

  /** `dropna(subset=['Transaction Date', 'Amount'])` and `Amount != 0`. */
  predicate Survives(t: Transaction) {
    t.date.Some? && !t.amount.IsZero()
  }

  /** The rows that survive the post-pass filter, in their original order. */
  function DropMissingAndZero(ts: seq<Transaction>): (r: seq<Transaction>)
    ensures |r| <= |ts|
    ensures forall t :: t in r <==> t in ts && Survives(t)
  {
    if ts == [] then []
    else
      var rest := DropMissingAndZero(ts[1..]);
      assert forall t :: t in ts <==> t == ts[0] || t in ts[1..];
      if Survives(ts[0]) then [ts[0]] + rest else rest
  }

  /**
   * What the loader hands back: `None` when no line produced a record
   * (the emptiness test comes before the filter), and the line numbers of
   * the lines that could not be parsed.
   */
  datatype LoadResult = LoadResult(transactions: Option<seq<Transaction>>, failedLines: seq<nat>)

  function CleanAndCombine(lines: seq<string>): LoadResult {
    var st := Pass(lines);
    LoadResult(if st.records == [] then None else Some(DropMissingAndZero(st.records)), st.failed)
  }

  /** The loader's loop, with the sticky `is_format2` flag, checked against `CleanAndCombine`. */
  method CleanAndCombineData(lines: seq<string>)
    returns (transactions: Option<seq<Transaction>>, failedLines: seq<nat>)
    ensures LoadResult(transactions, failedLines) == CleanAndCombine(lines)
  {
    ghost var rs := Readings(lines);
    var records: seq<Transaction> := [];
    failedLines := [];
    var isSingleAmount := false;
    for i := 0 to |lines|
      invariant PassOver(rs[..i])
                == PassState(if isSingleAmount then SingleAmount else DualColumn, records, failedLines)
    {
      var line := lines[i];
      PassPrefixStep(rs, i);
      if Strip(line) == [] || Contains(line, HeaderMarker) {
        assert rs[i] == Skipped;
        continue;
      }
      var parts := Split(Strip(line), ',');
      assert rs[i] == Data(TripsSingleAmount(parts), ParseDualColumn(parts), ParseSingleAmount(parts));
      if |parts| > 3 && ParseNumber(parts[3]).Some? {
        if |parts| <= 6 {
          isSingleAmount := true;
        }
      }
      var parsed := if isSingleAmount then ParseSingleAmount(parts) else ParseDualColumn(parts);
      match parsed {
        case Some(t) =>
          records := records + [t];
        case None =>
          failedLines := failedLines + [i + 1];
      }
    }
    assert rs[..|lines|] == rs;
    transactions := if records == [] then None else Some(DropMissingAndZero(records));
  }

  // ---------------------------------------------------------------------
  // The line loop, line by line
  // ---------------------------------------------------------------------

  /** The pass over the first `n + 1` lines is the pass over `n` lines and one more step. */
  lemma PassPrefixStep(rs: seq<Reading>, n: nat)
    requires n < |rs|
    ensures PassOver(rs[..n + 1]) == Step(PassOver(rs[..n]), rs[n], n + 1)
  {
    assert rs[..n + 1][..n] == rs[..n];
  }

  /** Line `j` (from 0) is a data line whose own fields trip the layout probe. */
  predicate TripsAt(rs: seq<Reading>, j: nat)
    requires j < |rs|
  {
    rs[j].Data? && rs[j].tripsProbe
  }

  /** The layout after `n` lines, stated without the loop: single-amount once any data line has tripped the probe. */
  function LayoutAfter(rs: seq<Reading>, n: nat): Layout
    requires n <= |rs|
  {
    if exists j :: 0 <= j < n && TripsAt(rs, j) then SingleAmount else DualColumn
  }

  /** The closed-form layout gains one line at a time. */
  lemma LayoutAfterStep(rs: seq<Reading>, n: nat)
    requires 0 < n <= |rs|
    ensures LayoutAfter(rs, n) == if TripsAt(rs, n - 1) then SingleAmount else LayoutAfter(rs, n - 1)
  {
    if !TripsAt(rs, n - 1) {
      assert forall j :: 0 <= j < n && TripsAt(rs, j) <==> 0 <= j < n - 1 && TripsAt(rs, j);
    }
  }

  /** The loop's layout flag is exactly "some data line so far tripped the probe". */
  lemma {:induction false} PassLayout(rs: seq<Reading>, n: nat)
    requires n <= |rs|
    ensures PassOver(rs[..n]).layout == LayoutAfter(rs, n)
  {
    if n == 0 {
      assert rs[..0] == [];
    } else {
      PassLayout(rs, n - 1);
      PassPrefixStep(rs, n - 1);
      LayoutAfterStep(rs, n);
    }
  }

  /** Once the loop is in the single-amount layout it stays there. */
  lemma LayoutSticky(rs: seq<Reading>, m: nat, n: nat)
    requires m <= n <= |rs|
    requires PassOver(rs[..m]).layout == SingleAmount
    ensures PassOver(rs[..n]).layout == SingleAmount
  {
    PassLayout(rs, m);
    PassLayout(rs, n);
  }

  /**
   * The line that trips the probe is itself read in the single-amount
   * layout, and so is every line after it.
   */
  lemma TrippingLineReadAsSingleAmount(rs: seq<Reading>, j: nat, k: nat)
    requires j <= k < |rs|
    requires TripsAt(rs, j)
    ensures PassOver(rs[..k + 1]).layout == SingleAmount
  {
    PassLayout(rs, k + 1);
  }

  /** Line `k` (from 0) is a data line that the layout it is read under cannot parse. */
  predicate FailsAt(rs: seq<Reading>, k: nat)
    requires k < |rs|
  {
    rs[k].Data? && rs[k].In(LayoutAfter(rs, k + 1)).None?
  }

  /** Line `k` (from 0) is a data line that yields the transaction `t`. */
  predicate YieldsAt(rs: seq<Reading>, k: nat, t: Transaction)
    requires k < |rs|
  {
    rs[k].Data? && rs[k].In(LayoutAfter(rs, k + 1)) == Some(t)
  }

  /** What line `n` (from 1) adds to the records and to the diagnostics. */
  lemma StepOutcome(rs: seq<Reading>, n: nat)
    requires 0 < n <= |rs|
    ensures PassOver(rs[..n]).failed
            == PassOver(rs[..n - 1]).failed + if FailsAt(rs, n - 1) then [n] else []
    ensures PassOver(rs[..n]).records
            == PassOver(rs[..n - 1]).records
               + if rs[n - 1].Data? && rs[n - 1].In(LayoutAfter(rs, n)).Some?
                 then [rs[n - 1].In(LayoutAfter(rs, n)).value] else []
  {
    PassPrefixStep(rs, n - 1);
    PassLayout(rs, n);
  }

  /**
   * The diagnostics are exactly the 1-based numbers of the data lines that
   * fail, counting skipped lines, in increasing order.
   */
  lemma {:induction false} FailedLines(rs: seq<Reading>, n: nat)
    requires n <= |rs|
    ensures forall m :: m in PassOver(rs[..n]).failed <==> 1 <= m <= n && FailsAt(rs, m - 1)
    ensures forall a, b :: 0 <= a < b < |PassOver(rs[..n]).failed| ==>
              PassOver(rs[..n]).failed[a] < PassOver(rs[..n]).failed[b]
  {
    if n == 0 {
      assert rs[..0] == [];
    } else {
      FailedLines(rs, n - 1);
      StepOutcome(rs, n);
      var prev := PassOver(rs[..n - 1]).failed;
      var now := PassOver(rs[..n]).failed;
      forall m
        ensures m in now <==> 1 <= m <= n && FailsAt(rs, m - 1)
      {
        assert m in now <==> m in prev || (m == n && FailsAt(rs, n - 1));
      }
      forall a, b | 0 <= a < b < |now|
        ensures now[a] < now[b]
      {
        if b >= |prev| {
          assert now[a] == prev[a] && prev[a] in prev;
        }
      }
    }
  }

  /**
   * The records are exactly the transactions the data lines yield: every
   * record comes from some line, and every line that parses contributes
   * its transaction.
   */
  lemma {:induction false} RecordOrigins(rs: seq<Reading>, n: nat)
    requires n <= |rs|
    ensures forall t :: t in PassOver(rs[..n]).records ==> exists k :: 0 <= k < n && YieldsAt(rs, k, t)
    ensures forall k, t :: 0 <= k < n && YieldsAt(rs, k, t) ==> t in PassOver(rs[..n]).records
  {
    if n == 0 {
      assert rs[..0] == [];
    } else {
      RecordOrigins(rs, n - 1);
      StepOutcome(rs, n);
      var prev := PassOver(rs[..n - 1]).records;
      var now := PassOver(rs[..n]).records;
      forall k, t | 0 <= k < n && YieldsAt(rs, k, t)
        ensures t in now
      {
        if k == n - 1 {
          assert now == prev + [t];
        }
      }
      forall t | t in now
        ensures exists k :: 0 <= k < n && YieldsAt(rs, k, t)
      {
        if t !in prev {
          assert YieldsAt(rs, n - 1, t);
        }
      }
    }
  }

  /** The data lines among the first `n`. */
  function DataLines(rs: seq<Reading>, n: nat): nat
    requires n <= |rs|
  {
    if n == 0 then 0
    else DataLines(rs, n - 1) + if rs[n - 1].Data? then 1 else 0
  }

  /** Every data line gives exactly one outcome: a record or a diagnostic. */
  lemma {:induction false} EveryDataLineAccounted(rs: seq<Reading>, n: nat)
    requires n <= |rs|
    ensures |PassOver(rs[..n]).records| + |PassOver(rs[..n]).failed| == DataLines(rs, n)
  {
    if n == 0 {
      assert rs[..0] == [];
    } else {
      EveryDataLineAccounted(rs, n - 1);
      PassPrefixStep(rs, n - 1);
    }
  }

  /** Later lines only append: what the loop has after `m` lines is a prefix of what it has after `n`. */
  lemma {:induction false} PassExtends(rs: seq<Reading>, m: nat, n: nat)
    requires m <= n <= |rs|
    ensures PassOver(rs[..m]).records <= PassOver(rs[..n]).records
    ensures PassOver(rs[..m]).failed <= PassOver(rs[..n]).failed
  {
    if m < n {
      PassExtends(rs, m, n - 1);
      PassPrefixStep(rs, n - 1);
    }
  }

  // ---------------------------------------------------------------------
  // The whole load
  // ---------------------------------------------------------------------

  /** Line `k` (from 0) is a data line that the layout it is read under can parse. */
  predicate ParsesAt(rs: seq<Reading>, k: nat)
    requires k < |rs|
  {
    rs[k].Data? && rs[k].In(LayoutAfter(rs, k + 1)).Some?
  }

  /** The loader reports "no data" exactly when no line of the file could be parsed. */
  lemma NoDataIffNothingParsed(lines: seq<string>)
    ensures CleanAndCombine(lines).transactions.None?
            <==> forall k :: 0 <= k < |lines| ==> !ParsesAt(Readings(lines), k)
  {
    var rs := Readings(lines);
    RecordOrigins(rs, |rs|);
    assert rs[..|rs|] == rs;
    var records := PassOver(rs).records;
    forall k | 0 <= k < |rs| && ParsesAt(rs, k)
      ensures rs[k].In(LayoutAfter(rs, k + 1)).value in records
    {
      assert YieldsAt(rs, k, rs[k].In(LayoutAfter(rs, k + 1)).value);
    }
    if records != [] {
      assert records[0] in records;
      var k :| 0 <= k < |rs| && YieldsAt(rs, k, records[0]);
      assert ParsesAt(rs, k);
    }
  }

  /**
   * The transactions handed back are exactly the rows some line yields
   * that have a date and a non-zero amount.
   */
  lemma LoadedTransactions(lines: seq<string>, ts: seq<Transaction>)
    requires CleanAndCombine(lines).transactions == Some(ts)
    ensures forall t :: t in ts <==> Survives(t) && exists k :: 0 <= k < |lines| && YieldsAt(Readings(lines), k, t)
  {
    var rs := Readings(lines);
    RecordOrigins(rs, |rs|);
    assert rs[..|rs|] == rs;
  }

  /** The reported line numbers are exactly those of the data lines that fail, in increasing order. */
  lemma DiagnosedLines(lines: seq<string>)
    ensures forall m :: m in CleanAndCombine(lines).failedLines
                        <==> 1 <= m <= |lines| && FailsAt(Readings(lines), m - 1)
    ensures forall a, b :: 0 <= a < b < |CleanAndCombine(lines).failedLines| ==>
              CleanAndCombine(lines).failedLines[a] < CleanAndCombine(lines).failedLines[b]
  {
    var rs := Readings(lines);
    FailedLines(rs, |rs|);
    assert rs[..|rs|] == rs;
  }

  /** A file whose rows all have zero amounts loads as an empty table, not as "no data". */
  lemma ZeroAmountsGiveEmptyTable(lines: seq<string>)
    requires Pass(lines).records != []
    requires forall t :: t in Pass(lines).records ==> t.amount.IsZero()
    ensures CleanAndCombine(lines).transactions == Some([])
  {
    DropNoneSurvive(Pass(lines).records);
  }

  /** Rows none of which survive the filter leave nothing. */
  lemma {:induction false} DropNoneSurvive(ts: seq<Transaction>)
    requires forall t :: t in ts ==> !Survives(t)
    ensures DropMissingAndZero(ts) == []
  {
    if ts != [] {
      assert ts[0] in ts;
      DropNoneSurvive(ts[1..]);
    }
  }

  /** The filter works row by row, so it keeps the rows' order. */
  lemma {:induction false} DropAppend(a: seq<Transaction>, b: seq<Transaction>)
    ensures DropMissingAndZero(a + b) == DropMissingAndZero(a) + DropMissingAndZero(b)
  {
    if a == [] {
      assert a + b == b;
    } else {
      assert (a + b)[0] == a[0] && (a + b)[1..] == a[1..] + b;
      DropAppend(a[1..], b);
    }
  }

  /** Rows that all survive the filter pass through unchanged. */
  lemma {:induction false} DropKeepsSurvivors(ts: seq<Transaction>)
    requires forall t :: t in ts ==> Survives(t)
    ensures DropMissingAndZero(ts) == ts
  {
    if ts != [] {
      assert ts[0] in ts;
      DropKeepsSurvivors(ts[1..]);
    }
  }

  // ---------------------------------------------------------------------
  // The two layouts, written out and read back
  // ---------------------------------------------------------------------

  /** A date as `pd.to_datetime` reads it: ISO text, or empty text for `NaT`. */
  function DateText(date: Option<Date>): string
    requires date.Some? ==> IsValidDate(date.value)
  {
    match date
    case None => ""
    case Some(d) => FormatDate(d)
  }

  lemma ToDatetimeDateText(date: Option<Date>)
    requires date.Some? ==> IsValidDate(date.value)
    ensures ToDatetime(DateText(date)) == Some(date)
  {
    match date
    case None =>
      assert Strip("") == "";
    case Some(d) =>
      ParseFormatDate(d);
  }

  /**
   * A transaction written in the dual-column layout: a non-negative amount
   * as the debit, a negative one as the credit, the other left empty.
   */
  function DualColumnFields(t: Transaction): seq<string>
    requires t.date.Some? ==> IsValidDate(t.date.value)
  {
    var debit := if t.amount.units < 0 then "" else FormatDecimal(t.amount);
    var credit := if t.amount.units < 0 then FormatDecimal(t.amount.Negate()) else "";
    [DateText(t.date), "", "", t.description, t.category, debit, credit, t.notes]
  }

  /** Reading a dual-column row back gives the transaction, and such a row never trips the probe. */
  lemma ReadDualColumnFields(t: Transaction)
    requires t.date.Some? ==> IsValidDate(t.date.value)
    ensures ParseDualColumn(DualColumnFields(t)) == Some(t)
    ensures !TripsSingleAmount(DualColumnFields(t))
  {
    ToDatetimeDateText(t.date);
    ParseFormat(t.amount);
    ParseFormat(t.amount.Negate());
    BlankIsNotANumber("");
  }

  /**
   * A numeric debit decides a dual-column amount: whatever the credit
   * field holds, the amount is the debit.
   */
  lemma DebitTakesPrecedence(fields: seq<string>, credit: string)
    requires |fields| >= 7 && ToDatetime(fields[0]).Some? && ParseNumber(fields[5]).Some?
    ensures ParseDualColumn(fields).Some? && ParseDualColumn(fields[6 := credit]).Some?
    ensures ParseDualColumn(fields[6 := credit]).value.amount == ParseDualColumn(fields).value.amount
    ensures ParseDualColumn(fields).value.amount == ParseNumber(fields[5]).value
  {
    var other := fields[6 := credit];
    assert other[0] == fields[0] && other[5] == fields[5];
  }

  /** A transaction written in the single-amount layout. */
  function SingleAmountFields(t: Transaction): seq<string>
    requires t.date.Some? ==> IsValidDate(t.date.value)
  {
    [DateText(t.date), "", t.description, FormatDecimal(t.amount), t.category]
  }

  /**
   * Reading a single-amount row back gives the transaction (that layout
   * has no notes), and such a row always trips the probe.
   */
  lemma ReadSingleAmountFields(t: Transaction)
    requires t.date.Some? ==> IsValidDate(t.date.value)
    requires t.notes == ""
    ensures ParseSingleAmount(SingleAmountFields(t)) == Some(t)
    ensures TripsSingleAmount(SingleAmountFields(t))
  {
    ToDatetimeDateText(t.date);
    ParseFormat(t.amount);
  }

  /**
   * Comma-free fields joined by commas, with whitespace around them such as
   * the line feed `readlines()` leaves on each line, form a data line (when
   * it has no header marker) whose fields are exactly those fields.
   */
  lemma ReadJoinedLine(fields: seq<string>, lead: string, trail: string)
    requires |fields| > 0
    requires forall k :: 0 <= k < |fields| ==> ',' !in fields[k]
    requires Join(fields, ',') != []
    requires !IsSpace(Join(fields, ',')[0]) && !IsSpace(Join(fields, ',')[|Join(fields, ',')| - 1])
    requires AllSpace(lead) && AllSpace(trail)
    requires !Contains(lead + Join(fields, ',') + trail, HeaderMarker)
    ensures Fields(lead + Join(fields, ',') + trail) == fields
    ensures Read(lead + Join(fields, ',') + trail)
            == Data(TripsSingleAmount(fields), ParseDualColumn(fields), ParseSingleAmount(fields))
  {
    StripAround(lead, Join(fields, ','), trail);
    SplitJoin(fields, ',');
  }
}
