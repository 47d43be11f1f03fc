/**
 * What the load makes of a three-line statement: a header line, a
 * dual-column row and a single-amount row that switches the layout. It
 * loads as two transactions, grouped under Amazon and Uber, with no line
 * reported as unparseable.
 */
module StatementExample {
  import opened Wrappers
  import opened PyText
  import opened Numbers
  import opened Dates
  import opened LineParser
  import opened Vendor
  import opened Pipeline

  const AmazonFields: seq<string> := ["2024-01-05", "x", "x", "AMAZON MKTPLACE", "Shopping", "45.99", "", ""]
  const UberFields: seq<string> := ["2024-01-06", "x", "UBER TRIP", "12.50", "Travel"]

  /** `Transaction Date,Posted Date,Card No.,Description,Category,Debit,Credit,Notes` */
  const Header := HeaderMarker + ",Posted Date,Card No.,Description,Category,Debit,Credit,Notes\n"
  /** `2024-01-05,x,x,AMAZON MKTPLACE,Shopping,45.99,,` */
  const AmazonLine := Join(AmazonFields, ',') + "\n"
  /** `2024-01-06,x,UBER TRIP,12.50,Travel` */
  const UberLine := Join(UberFields, ',') + "\n"

  /** The statement as `readlines()` returns it, each line with its line feed. */
  const Statement := [Header, AmazonLine, UberLine]

  const AmazonRow := Transaction(Some(Date(2024, 1, 5)), "AMAZON MKTPLACE", "Shopping", Decimal(4599, 2), "")
  const UberRow := Transaction(Some(Date(2024, 1, 6)), "UBER TRIP", "Travel", Decimal(1250, 2), "")

  // ---------------------------------------------------------------------
  // The fields
  // ---------------------------------------------------------------------

  /** One more digit on the right shifts the value one decimal place. */
  lemma DigitsSnoc(ds: string, c: char)
    requires AllDigits(ds) && IsDigit(c)
    ensures AllDigits(ds + [c])
    ensures DigitsValue(ds + [c]) == DigitsValue(ds) * 10 + DigitValue(c)
  {
    assert (ds + [c])[..|ds|] == ds;
  }

  lemma TwoDigits(a: char, b: char)
    requires IsDigit(a) && IsDigit(b)
    ensures AllDigits([a, b])
    ensures DigitsValue([a, b]) == 10 * DigitValue(a) + DigitValue(b)
  {
    DigitsSnoc([], a);
    assert [] + [a] == [a];
    DigitsSnoc([a], b);
    assert [a] + [b] == [a, b];
  }

  lemma FourDigits(a: char, b: char, c: char, d: char)
    requires IsDigit(a) && IsDigit(b) && IsDigit(c) && IsDigit(d)
    ensures AllDigits([a, b, c, d])
    ensures DigitsValue([a, b, c, d]) == 1000 * DigitValue(a) + 100 * DigitValue(b) + 10 * DigitValue(c) + DigitValue(d)
  {
    TwoDigits(a, b);
    DigitsSnoc([a, b], c);
    assert [a, b] + [c] == [a, b, c];
    DigitsSnoc([a, b, c], d);
    assert [a, b, c] + [d] == [a, b, c, d];
  }

  /** Digits with a point in between read as the amount they spell. */
  lemma PointNumber(whole: string, frac: string, s: string)
    requires whole != [] && frac != [] && AllDigits(whole) && AllDigits(frac)
    requires s == whole + "." + frac
    ensures AllDigits(whole + frac)
    ensures ParseNumber(s) == Some(Decimal(DigitsValue(whole + frac), |frac|))
  {
    DigitsHaveNoSeparator(whole);
    DigitsHaveNoSeparator(frac);
    SplitPoint(whole, frac);
    var u := Decimal(DigitsValue(whole + frac), |frac|);
    assert ParseUnsigned(s) == Some(u);
    ParseSigned(s, s, false, u);
  }

  /** Two digits, a point and two more digits: an amount in hundredths. */
  lemma Hundredths(a: char, b: char, c: char, d: char)
    requires IsDigit(a) && IsDigit(b) && IsDigit(c) && IsDigit(d)
    ensures AllDigits([a, b, c, d])
    ensures ParseNumber([a, b, '.', c, d]) == Some(Decimal(DigitsValue([a, b, c, d]), 2))
  {
    assert [a, b, '.', c, d] == [a, b] + "." + [c, d];
    assert [a, b] + [c, d] == [a, b, c, d];
    TwoDigits(a, b);
    TwoDigits(c, d);
    PointNumber([a, b], [c, d], [a, b, '.', c, d]);
  }

  lemma AmazonAmount(s: string)
    requires s == "45.99"
    ensures ParseNumber(s) == Some(Decimal(4599, 2))
  {
    assert s == ['4', '5', '.', '9', '9'];
    Hundredths('4', '5', '9', '9');
    FourDigits('4', '5', '9', '9');
  }

  lemma UberAmount(s: string)
    requires s == "12.50"
    ensures ParseNumber(s) == Some(Decimal(1250, 2))
  {
    assert s == ['1', '2', '.', '5', '0'];
    Hundredths('1', '2', '5', '0');
    FourDigits('1', '2', '5', '0');
  }

  /** Four, two and two digits spelling a day of January 2024 read as that day. */
  lemma January2024(dd: string, day: int)
    requires |dd| == 2 && dd[0] == '0' && IsDigit(dd[1]) && 1 <= DigitValue(dd[1])
    requires day == DigitValue(dd[1])
    ensures ParseDate(Join(["2024", "01", dd], '-')) == ParsedDate(Date(2024, 1, day))
  {
    FourDigits('2', '0', '2', '4');
    assert "2024" == ['2', '0', '2', '4'];
    TwoDigits('0', '1');
    assert "01" == ['0', '1'];
    TwoDigits('0', dd[1]);
    assert dd == ['0', dd[1]];
    ParseJoinedDate("2024", "01", dd, Date(2024, 1, day));
  }

  lemma AmazonDate(s: string)
    requires s == "2024-01-05"
    ensures ToDatetime(s) == Some(Some(Date(2024, 1, 5)))
  {
    assert Join(["2024", "01", "05"], '-') == s;
    January2024("05", 5);
  }

  lemma UberDate(s: string)
    requires s == "2024-01-06"
    ensures ToDatetime(s) == Some(Some(Date(2024, 1, 6)))
  {
    assert Join(["2024", "01", "06"], '-') == s;
    January2024("06", 6);
  }

  // ---------------------------------------------------------------------
  // The lines
  // ---------------------------------------------------------------------

  lemma HeaderText()
    ensures OccursAt(Header, HeaderMarker, 0)
  {
  }

  /** The first line carries the header marker and is skipped. */
  lemma HeaderSkipped()
    ensures Read(Header) == Skipped
  {
    HeaderText();
  }

  /** A character that is neither the separator nor in any field is not in the joined text. */
  lemma {:induction false} JoinAvoids(f: seq<string>, sep: char, c: char)
    requires |f| > 0 && c != sep
    requires forall k :: 0 <= k < |f| ==> c !in f[k]
    ensures c !in Join(f, sep)
  {
    if |f| > 1 {
      JoinAvoids(f[1..], sep, c);
    }
  }

  /** A last field that is empty leaves the separator as the last character. */
  lemma {:induction false} JoinEmptyLast(f: seq<string>, sep: char)
    requires |f| > 1 && f[|f| - 1] == []
    ensures Join(f, sep) != [] && Join(f, sep)[|Join(f, sep)| - 1] == sep
  {
    if |f| > 2 {
      JoinEmptyLast(f[1..], sep);
    }
  }

  /**
   * A data line: comma-free fields joined by commas and ended by a line
   * feed, with no header marker in it, is read as those fields.
   */
  lemma ReadDataLine(fields: seq<string>, line: string)
    requires |fields| > 0 && forall k :: 0 <= k < |fields| ==> ',' !in fields[k]
    requires Join(fields, ',') != []
    requires !IsSpace(Join(fields, ',')[0]) && !IsSpace(Join(fields, ',')[|Join(fields, ',')| - 1])
    requires line == Join(fields, ',') + "\n" && !Contains(line, HeaderMarker)
    ensures Read(line) == Data(TripsSingleAmount(fields), ParseDualColumn(fields), ParseSingleAmount(fields))
  {
    assert line == "" + Join(fields, ',') + "\n";
    ReadJoinedLine(fields, "", "\n");
  }

  /** A line without a `D` cannot hold the header marker. */
  lemma NoMarkerWithoutD(line: string)
    requires 'D' !in line
    ensures !Contains(line, HeaderMarker)
  {
    assert HeaderMarker[12] == 'D';
    ContainsHasChars(line, HeaderMarker, 12);
  }

  lemma AmazonFieldsText()
    ensures forall k :: 0 <= k < |AmazonFields| ==> ',' !in AmazonFields[k] && 'D' !in AmazonFields[k]
    ensures AmazonFields[0][0] == '2' && AmazonFields[7] == []
  {
  }

  lemma AmazonLineText()
    ensures forall k :: 0 <= k < |AmazonFields| ==> ',' !in AmazonFields[k]
    ensures Join(AmazonFields, ',') != []
    ensures Join(AmazonFields, ',')[0] == '2' && Join(AmazonFields, ',')[|Join(AmazonFields, ',')| - 1] == ','
    ensures 'D' !in AmazonLine
  {
    AmazonFieldsText();
    JoinFront(AmazonFields, ',');
    JoinEmptyLast(AmazonFields, ',');
    JoinAvoids(AmazonFields, ',', 'D');
  }

  /** The second line has eight fields, so it leaves the dual-column layout in force. */
  lemma AmazonRead()
    ensures Read(AmazonLine) == Data(TripsSingleAmount(AmazonFields), ParseDualColumn(AmazonFields), ParseSingleAmount(AmazonFields))
  {
    AmazonLineText();
    NoMarkerWithoutD(AmazonLine);
    ReadDataLine(AmazonFields, AmazonLine);
  }

  /**
   * Eight fields with a date and a numeric debit: the row does not trip the
   * probe and reads in the dual-column layout with that debit as amount.
   */
  lemma DualColumnRow(fields: seq<string>, date: Date, debit: Decimal)
    requires |fields| == 8
    requires ToDatetime(fields[0]) == Some(Some(date)) && ParseNumber(fields[5]) == Some(debit)
    ensures !TripsSingleAmount(fields)
    ensures ParseDualColumn(fields) == Some(Transaction(Some(date), fields[3], fields[4], debit, fields[7]))
  {
  }

  lemma AmazonFieldsRead()
    ensures !TripsSingleAmount(AmazonFields)
    ensures ParseDualColumn(AmazonFields) == Some(AmazonRow)
  {
    var f := AmazonFields;
    AmazonDate(f[0]);
    AmazonAmount(f[5]);
    DualColumnRow(f, Date(2024, 1, 5), Decimal(4599, 2));
  }

  lemma UberFieldsText()
    ensures forall k :: 0 <= k < |UberFields| ==> ',' !in UberFields[k] && 'D' !in UberFields[k]
    ensures UberFields[0][0] == '2' && UberFields[4][|UberFields[4]| - 1] == 'l'
  {
  }

  lemma UberLineText()
    ensures forall k :: 0 <= k < |UberFields| ==> ',' !in UberFields[k]
    ensures Join(UberFields, ',') != []
    ensures Join(UberFields, ',')[0] == '2' && Join(UberFields, ',')[|Join(UberFields, ',')| - 1] == 'l'
    ensures 'D' !in UberLine
  {
    UberFieldsText();
    JoinFront(UberFields, ',');
    JoinBack(UberFields, ',');
    JoinAvoids(UberFields, ',', 'D');
  }

  /** The third line has five fields and a number in field 3: it switches to the single-amount layout. */
  lemma UberRead()
    ensures Read(UberLine) == Data(TripsSingleAmount(UberFields), ParseDualColumn(UberFields), ParseSingleAmount(UberFields))
  {
    UberLineText();
    NoMarkerWithoutD(UberLine);
    ReadDataLine(UberFields, UberLine);
  }

  /**
   * Five fields with a date and a number in field 3: the row trips the
   * probe and reads in the single-amount layout.
   */
  lemma SingleAmountRow(fields: seq<string>, date: Date, amount: Decimal)
    requires |fields| == 5
    requires ToDatetime(fields[0]) == Some(Some(date)) && ParseNumber(fields[3]) == Some(amount)
    ensures TripsSingleAmount(fields)
    ensures ParseSingleAmount(fields) == Some(Transaction(Some(date), fields[2], fields[4], amount, ""))
  {
  }

  lemma UberFieldsRead()
    ensures TripsSingleAmount(UberFields)
    ensures ParseSingleAmount(UberFields) == Some(UberRow)
  {
    var f := UberFields;
    UberDate(f[0]);
    UberAmount(f[3]);
    SingleAmountRow(f, Date(2024, 1, 6), Decimal(1250, 2));
  }

  // ---------------------------------------------------------------------
  // The whole load
  // ---------------------------------------------------------------------

  /**
   * A skipped line, a data line that leaves the dual-column layout in force
   * and yields `first`, then a data line that trips the probe and yields
   * `second` in the single-amount layout.
   */
  lemma {:induction false} PassOfThree(rs: seq<Reading>, first: Transaction, second: Transaction)
    requires |rs| == 3 && rs[0] == Skipped
    requires rs[1].Data? && !rs[1].tripsProbe && rs[1].asDualColumn == Some(first)
    requires rs[2].Data? && rs[2].tripsProbe && rs[2].asSingleAmount == Some(second)
    ensures PassOver(rs) == PassState(SingleAmount, [first, second], [])
  {
    assert rs[..0] == [] && rs[..3] == rs;
    PassPrefixStep(rs, 0);
    PassPrefixStep(rs, 1);
    PassPrefixStep(rs, 2);
  }

  /**
   * The header is skipped, the Amazon row is read in the dual-column
   * layout, and the Uber row switches the file to the single-amount layout
   * and is read in it. No line fails.
   */
  lemma StatementPass()
    ensures Pass(Statement) == PassState(SingleAmount, [AmazonRow, UberRow], [])
  {
    var rs := Readings(Statement);
    assert rs[0] == Read(Header) && rs[1] == Read(AmazonLine) && rs[2] == Read(UberLine);
    HeaderSkipped();
    AmazonRead();
    AmazonFieldsRead();
    UberRead();
    UberFieldsRead();
    PassOfThree(rs, AmazonRow, UberRow);
  }

  /** Both rows have a date and a non-zero amount, so both survive the filter. */
  lemma StatementLoads()
    ensures CleanAndCombine(Statement) == LoadResult(Some([AmazonRow, UberRow]), [])
  {
    StatementPass();
    DropKeepsSurvivors([AmazonRow, UberRow]);
  }

  lemma AmazonVendorText(d: string)
    requires d == "AMAZON MKTPLACE"
    ensures forall k :: 0 <= k < |d| ==> !IsLowerLetter(d[k])
    ensures OccursAt(d, "AMAZON", 0)
  {
  }

  /** `AMAZON MKTPLACE` is Amazon. */
  lemma AmazonVendor(d: string)
    requires d == "AMAZON MKTPLACE"
    ensures GetSmartVendor(d) == "Amazon"
  {
    AmazonVendorText(d);
    UpperUnchanged(d);
    assert Contains(d, "AMAZON");
    AmazonAlwaysWins(d);
  }

  lemma UberVendorText(d: string)
    requires d == "UBER TRIP"
    ensures forall k :: 0 <= k < |d| ==> !IsLowerLetter(d[k])
    ensures Avoids(d, "ZOYG") && PrefixAt(d, "UBER", 0)
  {
  }

  /** `UBER TRIP` is Uber. */
  lemma UberVendor(d: string)
    requires d == "UBER TRIP"
    ensures GetSmartVendor(d) == "Uber"
  {
    UberVendorText(d);
    UpperUnchanged(d);
    UberAfterFourMisses(d, 0);
  }

  /** Two transactions get their vendors, in order. */
  lemma VendorsOfTwo(first: Transaction, second: Transaction)
    ensures WithVendors([first, second])
            == [Row(first, GetSmartVendor(first.description)), Row(second, GetSmartVendor(second.description))]
  {
    var rows := WithVendors([first, second]);
    assert rows == [rows[0], rows[1]];
  }

  /**
   * The statement loads as two rows, grouped under Amazon and Uber, and no
   * line is reported as unparseable.
   */
  lemma StatementTable()
    ensures CleanAndCombine(Statement).failedLines == []
    ensures LoadTable(Statement) == Some([Row(AmazonRow, "Amazon"), Row(UberRow, "Uber")])
  {
    StatementLoads();
    VendorsOfTwo(AmazonRow, UberRow);
    AmazonVendor(AmazonRow.description);
    UberVendor(UberRow.description);
  }
}
