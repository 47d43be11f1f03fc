/**
 * The start of the program's main flow: load the statement, give up when
 * the loader found no data, and otherwise add a `Vendor` column computed
 * from each row's description.
 */
module Pipeline {
  import opened Wrappers
  import opened PyText
  import opened LineParser
  import opened Vendor

  /** A loaded row with its `Vendor` column. */
  datatype Row = Row(transaction: Transaction, vendor: string)

  /** `master_df['Description'].apply(get_smart_vendor)`, stored as the `Vendor` column. */
  function WithVendors(ts: seq<Transaction>): (rows: seq<Row>)
    ensures |rows| == |ts|
    ensures forall k :: 0 <= k < |ts| ==>
              rows[k].transaction == ts[k] && rows[k].vendor == GetSmartVendor(ts[k].description)
  {
    if ts == [] then [] else [Row(ts[0], GetSmartVendor(ts[0].description))] + WithVendors(ts[1..])
  }

  /** The table without its `Vendor` column. */
  function Transactions(rows: seq<Row>): (ts: seq<Transaction>)
    ensures |ts| == |rows|
    ensures forall k :: 0 <= k < |rows| ==> ts[k] == rows[k].transaction
  {
    if rows == [] then [] else [rows[0].transaction] + Transactions(rows[1..])
  }

  /** Adding the column changes no other column, no row and no order. */
  lemma {:induction false} VendorsOnlyAddAColumn(ts: seq<Transaction>)
    ensures Transactions(WithVendors(ts)) == ts
  {
    var back := Transactions(WithVendors(ts));
    assert |back| == |ts|;
    assert forall k :: 0 <= k < |ts| ==> back[k] == ts[k];
  }

  /** Rows whose descriptions differ only in case get the same vendor. */
  lemma SameVendorIgnoringCase(ts: seq<Transaction>, i: nat, j: nat)
    requires i < |ts| && j < |ts|
    requires Upper(ts[i].description) == Upper(ts[j].description)
    ensures WithVendors(ts)[i].vendor == WithVendors(ts)[j].vendor
  {
    IgnoresCase(ts[i].description, ts[j].description);
  }

  /** Every row that mentions `AMAZON` or `AMZN` is grouped under Amazon. */
  lemma AmazonRowsGrouped(ts: seq<Transaction>)
    ensures forall k :: 0 <= k < |ts| && Contains(Upper(ts[k].description), "AMAZON") ==>
              WithVendors(ts)[k].vendor == "Amazon"
    ensures forall k :: 0 <= k < |ts| && Contains(Upper(ts[k].description), "AMZN") ==>
              WithVendors(ts)[k].vendor == "Amazon"
  {
    forall k | 0 <= k < |ts| && (Contains(Upper(ts[k].description), "AMAZON") || Contains(Upper(ts[k].description), "AMZN"))
      ensures WithVendors(ts)[k].vendor == "Amazon"
    {
      AmazonAlwaysWins(ts[k].description);
    }
  }

  /**
   * Load the statement's lines; `None` when the loader reports no data,
   * which ends the program, and otherwise the table with its vendors.
   */
  function LoadTable(lines: seq<string>): Option<seq<Row>> {
    match CleanAndCombine(lines).transactions
    case None => None
    case Some(ts) => Some(WithVendors(ts))
  }

  /**
   * The program goes on exactly when some line produced a record, and
   * then each row is a surviving record of some line, with the vendor of
   * its description.
   */
  lemma LoadedTable(lines: seq<string>)
    ensures LoadTable(lines).Some? <==> exists k :: 0 <= k < |lines| && ParsesAt(Readings(lines), k)
    ensures LoadTable(lines).Some? ==>
              forall row :: row in LoadTable(lines).value ==>
                Survives(row.transaction)
                && (exists k :: 0 <= k < |lines| && YieldsAt(Readings(lines), k, row.transaction))
                && row.vendor == GetSmartVendor(row.transaction.description)
  {
    NoDataIffNothingParsed(lines);
    if CleanAndCombine(lines).transactions.Some? {
      var ts := CleanAndCombine(lines).transactions.value;
      LoadedTransactions(lines, ts);
      var rows := WithVendors(ts);
      forall row | row in rows
        ensures Survives(row.transaction)
        ensures exists k :: 0 <= k < |lines| && YieldsAt(Readings(lines), k, row.transaction)
        ensures row.vendor == GetSmartVendor(row.transaction.description)
      {
        var i :| 0 <= i < |rows| && rows[i] == row;
        assert row.transaction in ts;
      }
    }
  }
}
