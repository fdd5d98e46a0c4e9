/** The database client's mapping between a pay statement and its rows:
    one statement row and one item row per summary line on save, and the
    statement rebuilt from the rows on load. The queries themselves are not
    modelled: the contractor lookup and the rows read back are inputs.
    Money is stored as whole cents, rounded as `Math.round` does. */
module SupabaseRows {
  import opened Wrappers
  import opened Statement
  import PayPeriods
  import JsNumber

  /** `Math.round(x * 100)`. */
  function Cents(x: real): int
  {
    JsNumber.Round(x * 100.0)
  }

  /** An amount with at most two decimals is stored exactly and reads back
      as itself. */
  lemma CentsExact(x: real, k: int)
    requires x * 100.0 == k as real
    ensures Cents(x) == k
    ensures (Cents(x) as real) / 100.0 == x
  {
  }

  datatype StatementRow = StatementRow(
    contractorId: string,
    periodStart: string,
    periodEnd: string,
    status: string,
    subtotalCents: int,
    adjustmentsCents: int,
    totalCents: int,
    notes: string)

  /** An item row; `building_id` is null and the metadata names the summary
      as its source in every row, so neither is carried. */
  datatype ItemRow = ItemRow(
    description: string,
    unitType: string,
    rateCents: int,
    quantity: real,
    lineTotalCents: int)

  /** `numberOfVisits || 1`: a zero quantity is written as 1. */
  function SaveItem(item: SummaryItem): (r: ItemRow)
    ensures r.unitType == "hour" <==> item.qtySuffix == Some("hrs")
    ensures r.unitType != "hour" ==> r.unitType == "visit"
    ensures r.quantity == if item.numberOfVisits == 0.0 then 1.0 else item.numberOfVisits
    ensures r.description == item.description
    ensures r.rateCents == Cents(item.payPerVisit) && r.lineTotalCents == Cents(item.total)
  {
    ItemRow(item.description,
            if item.qtySuffix == Some("hrs") then "hour" else "visit",
            Cents(item.payPerVisit),
            if item.numberOfVisits == 0.0 then 1.0 else item.numberOfVisits,
            Cents(item.total))
  }

  function SaveItems(summary: seq<SummaryItem>): (r: seq<ItemRow>)
    ensures |r| == |summary| && forall i :: 0 <= i < |summary| ==> r[i] == SaveItem(summary[i])
  {
    if summary == [] then [] else [SaveItem(summary[0])] + SaveItems(summary[1..])
  }

  /** The statement row `save` inserts for a contractor id and a period. */
  function StatementRowFor(name: string, data: PayStatementData, contractorId: string, period: PayPeriods.PayPeriod): StatementRow
  {
    var subtotal := SumTotals(data.summary);
    StatementRow(
      contractorId,
      period.StartDate(),
      period.EndDate(),
      "draft",
      Cents(subtotal),
      0,
      Cents(if data.totalPayment != 0.0 then data.totalPayment else subtotal),
      if data.notes.Some? && data.notes.value != "" then data.notes.value else name)
  }

  /** The rows `save` inserts, given the id the contractor lookup by payee
      name returned (None when no row matched). */
  function SaveRows(name: string, data: PayStatementData, contractorId: Option<string>): (r: Result<(StatementRow, seq<ItemRow>)>)
    ensures contractorId.None? ==> r.Failure?
    ensures contractorId.Some? && PayPeriods.GetPayPeriodById(data.payment.payPeriodId).None? ==>
              r == Failure("Invalid pay period selected")
  {
    if contractorId.None? then
      Failure("Contractor not found in Supabase: " + data.paidTo.name + ". Make sure they exist in app_contractors.")
    else
      var period := PayPeriods.GetPayPeriodById(data.payment.payPeriodId);
      if period.None? then Failure("Invalid pay period selected")
      else Success((StatementRowFor(name, data, contractorId.value, period.value), SaveItems(data.summary)))
  }

  /** A save to a known contractor and a generated period writes the
      period's dates, a draft status, the summary subtotal, the stored
      total or else the subtotal, the notes or else the name, and one item
      per summary line. */
  lemma SaveRowsSpec(name: string, data: PayStatementData, contractorId: string)
    requires PayPeriods.GetPayPeriodById(data.payment.payPeriodId).Some?
    ensures var r := SaveRows(name, data, Some(contractorId));
            var p := PayPeriods.GetPayPeriodById(data.payment.payPeriodId).value;
            && r.Success?
            && r.value.0.contractorId == contractorId
            && r.value.0.periodStart == p.StartDate() && r.value.0.periodEnd == p.EndDate()
            && r.value.0.status == "draft" && r.value.0.adjustmentsCents == 0
            && r.value.0.subtotalCents == Cents(SumTotals(data.summary))
            && (data.totalPayment != 0.0 ==> r.value.0.totalCents == Cents(data.totalPayment))
            && (data.totalPayment == 0.0 ==> r.value.0.totalCents == Cents(SumTotals(data.summary)))
            && (data.notes.None? || data.notes == Some("") ==> r.value.0.notes == name)
            && (data.notes.Some? && data.notes.value != "" ==> r.value.0.notes == data.notes.value)
            && |r.value.1| == |data.summary|
            && forall i :: 0 <= i < |data.summary| ==>
                 var row, item := r.value.1[i], data.summary[i];
                 && row.description == item.description
                 && (row.unitType == if item.qtySuffix == Some("hrs") then "hour" else "visit")
                 && row.rateCents == Cents(item.payPerVisit)
                 && row.quantity == (if item.numberOfVisits == 0.0 then 1.0 else item.numberOfVisits)
                 && row.lineTotalCents == Cents(item.total)
  {
    var p := PayPeriods.GetPayPeriodById(data.payment.payPeriodId).value;
    assert SaveRows(name, data, Some(contractorId)) == Success((StatementRowFor(name, data, contractorId, p), SaveItems(data.summary)));
    StatementRowSpec(name, data, contractorId, p);
    SaveItemsSpec(data.summary);
  }

  lemma StatementRowSpec(name: string, data: PayStatementData, contractorId: string, p: PayPeriods.PayPeriod)
    ensures var row := StatementRowFor(name, data, contractorId, p);
            && row.contractorId == contractorId
            && row.periodStart == p.StartDate() && row.periodEnd == p.EndDate()
            && row.status == "draft" && row.adjustmentsCents == 0
            && row.subtotalCents == Cents(SumTotals(data.summary))
            && (data.totalPayment != 0.0 ==> row.totalCents == Cents(data.totalPayment))
            && (data.totalPayment == 0.0 ==> row.totalCents == Cents(SumTotals(data.summary)))
            && (data.notes.None? || data.notes == Some("") ==> row.notes == name)
            && (data.notes.Some? && data.notes.value != "" ==> row.notes == data.notes.value)
  {
  }

  lemma SaveItemsSpec(summary: seq<SummaryItem>)
    ensures |SaveItems(summary)| == |summary|
    ensures forall i :: 0 <= i < |summary| ==>
              var row, item := SaveItems(summary)[i], summary[i];
              && row.description == item.description
              && (row.unitType == if item.qtySuffix == Some("hrs") then "hour" else "visit")
              && row.rateCents == Cents(item.payPerVisit)
              && row.quantity == (if item.numberOfVisits == 0.0 then 1.0 else item.numberOfVisits)
              && row.lineTotalCents == Cents(item.total)
  {
  }

  // ---------------------------------------------------------------------
  // Load

  /** The columns read back; each may be null. */
  datatype StoredStatement = StoredStatement(
    contractorId: string,
    periodStart: string,
    periodEnd: string,
    totalCents: Option<int>,
    notes: Option<string>)

  datatype StoredItem = StoredItem(
    description: Option<string>,
    unitType: Option<string>,
    rateCents: Option<int>,
    quantity: Option<real>,
    lineTotalCents: Option<int>)

  datatype StoredAddress = StoredAddress(city: Option<string>, state: Option<string>, zipCode: Option<string>)

  /** The contractor columns read back: name, address and payment method. */
  datatype StoredContractor = StoredContractor(
    name: Option<string>,
    address: Option<StoredAddress>,
    paymentMethod: Option<string>)

  /** `x || fallback` on a string column. */
  function OrText(x: Option<string>, fallback: string): string
  {
    if x.Some? && x.value != "" then x.value else fallback
  }

  function OrCents(x: Option<int>): int
  {
    if x.Some? then x.value else 0
  }

  function LoadItem(i: StoredItem): (r: SummaryItem)
    ensures r.qtySuffix == Some("hrs") <==> i.unitType == Some("hour")
    ensures r.qtySuffix != Some("hrs") ==> r.qtySuffix.None?
  {
    SummaryItem(
      OrText(i.description, ""),
      (OrCents(i.rateCents) as real) / 100.0,
      if i.quantity.Some? then i.quantity.value else 0.0,
      if i.unitType == Some("hour") then Some("hrs") else None,
      (OrCents(i.lineTotalCents) as real) / 100.0)
  }

  function LoadDetail(i: StoredItem): PaymentDetail
  {
    PaymentDetail(OrText(i.description, ""), (OrCents(i.lineTotalCents) as real) / 100.0, None)
  }

  function LoadItems(items: seq<StoredItem>): (r: seq<SummaryItem>)
    ensures |r| == |items| && forall i :: 0 <= i < |items| ==> r[i] == LoadItem(items[i])
  {
    if items == [] then [] else [LoadItem(items[0])] + LoadItems(items[1..])
  }

  function LoadDetails(items: seq<StoredItem>): (r: seq<PaymentDetail>)
    ensures |r| == |items| && forall i :: 0 <= i < |items| ==> r[i] == LoadDetail(items[i])
  {
    if items == [] then [] else [LoadDetail(items[0])] + LoadDetails(items[1..])
  }

  /** `load`: null for a missing statement row; otherwise the company
      constants, the contractor's name, address and method or their
      fallbacks, no pay-period id, and the items as details and summary. */
  function LoadStatement(ps: Option<StoredStatement>, items: seq<StoredItem>, contractor: Option<StoredContractor>): (r: Option<PayStatementData>)
    ensures ps.None? <==> r.None?
    ensures r.Some? ==> r.value.payment.payPeriodId == "" && |r.value.summary| == |items|
    ensures r.Some? ==> r.value.totalPayment == (OrCents(ps.value.totalCents) as real) / 100.0
  {
    if ps.None? then None
    else
      var name := if contractor.Some? then OrText(contractor.value.name, "[Name]") else "[Name]";
      var addr := if contractor.Some? && contractor.value.address.Some? then contractor.value.address.value
                  else StoredAddress(Some(""), Some(""), Some(""));
      var payMethod := if contractor.Some? then OrText(contractor.value.paymentMethod, "Direct Deposit") else "Direct Deposit";
      Some(PayStatementData(
        CompanyName, Company, CompanyPhone,
        Payee(name, Address(Some(""), OrText(addr.city, ""), OrText(addr.state, ""), OrText(addr.zipCode, ""))),
        Payment("", payMethod),
        LoadDetails(items),
        LoadItems(items),
        (OrCents(ps.value.totalCents) as real) / 100.0,
        if ps.value.notes.Some? && ps.value.notes.value != "" then ps.value.notes else None))
  }

  // ---------------------------------------------------------------------
  // Round trip

  /** The columns of a written item as they read back. */
  function Stored(row: ItemRow): StoredItem
  {
    StoredItem(Some(row.description), Some(row.unitType), Some(row.rateCents), Some(row.quantity), Some(row.lineTotalCents))
  }

  function StoredStatementOf(row: StatementRow): StoredStatement
  {
    StoredStatement(row.contractorId, row.periodStart, row.periodEnd, Some(row.totalCents), Some(row.notes))
  }

  /** A line with a rate and a total in whole cents comes back unchanged,
      except that a zero quantity comes back as 1 and any suffix other than
      "hrs" comes back absent. */
  lemma ItemRoundTrip(item: SummaryItem, rate: int, total: int)
    requires item.payPerVisit * 100.0 == rate as real && item.total * 100.0 == total as real
    ensures var back := LoadItem(Stored(SaveItem(item)));
            && back.description == item.description
            && back.payPerVisit == item.payPerVisit && back.total == item.total
            && back.numberOfVisits == (if item.numberOfVisits == 0.0 then 1.0 else item.numberOfVisits)
            && (back.qtySuffix == Some("hrs") <==> item.qtySuffix == Some("hrs"))
            && (item.qtySuffix != Some("hrs") ==> back.qtySuffix.None?)
  {
    CentsExact(item.payPerVisit, rate);
    CentsExact(item.total, total);
  }

  /** Lines whose amounts are in whole cents, with a non-zero quantity and
      either no suffix or "hrs", are what the mapping preserves. */
  predicate Preserved(item: SummaryItem)
  {
    (item.payPerVisit * 100.0).Floor as real == item.payPerVisit * 100.0
    && (item.total * 100.0).Floor as real == item.total * 100.0
    && item.numberOfVisits != 0.0
    && (item.qtySuffix.None? || item.qtySuffix == Some("hrs"))
  }

  function StoredItems(rows: seq<ItemRow>): (r: seq<StoredItem>)
    ensures |r| == |rows| && forall i :: 0 <= i < |rows| ==> r[i] == Stored(rows[i])
  {
    if rows == [] then [] else [Stored(rows[0])] + StoredItems(rows[1..])
  }

  /** A summary of preserved lines survives the item rows unchanged. */
  lemma ItemsRoundTrip(summary: seq<SummaryItem>)
    requires forall i :: 0 <= i < |summary| ==> Preserved(summary[i])
    ensures LoadItems(StoredItems(SaveItems(summary))) == summary
  {
    var saved := SaveItems(summary);
    var stored := StoredItems(saved);
    var back := LoadItems(stored);
    forall i | 0 <= i < |summary| ensures back[i] == summary[i] {
      assert back[i] == LoadItem(Stored(SaveItem(summary[i])));
      ItemPreserved(summary[i]);
    }
  }

  lemma ItemPreserved(item: SummaryItem)
    requires Preserved(item)
    ensures LoadItem(Stored(SaveItem(item))) == item
  {
    ItemRoundTrip(item, (item.payPerVisit * 100.0).Floor, (item.total * 100.0).Floor);
  }

  /** The parts of a loaded statement that come from the statement row and
      the item rows. */
  lemma LoadedParts(ps: StoredStatement, items: seq<StoredItem>, contractor: Option<StoredContractor>)
    ensures var back := LoadStatement(Some(ps), items, contractor).value;
            && back.summary == LoadItems(items)
            && back.notes == (if ps.notes.Some? && ps.notes.value != "" then ps.notes else None)
  {
  }

  /** Saving a statement whose lines are all preserved and loading it back
      gives the same summary, the total when it is in whole cents and not
      0, the notes or else the name, and an empty pay-period id. */
  lemma StatementRoundTrip(name: string, data: PayStatementData, contractorId: string, contractor: Option<StoredContractor>)
    requires PayPeriods.GetPayPeriodById(data.payment.payPeriodId).Some?
    requires forall i :: 0 <= i < |data.summary| ==> Preserved(data.summary[i])
    requires name != ""
    ensures var rows := SaveRows(name, data, Some(contractorId)).value;
            var back := LoadStatement(Some(StoredStatementOf(rows.0)), StoredItems(rows.1), contractor).value;
            && back.summary == data.summary
            && back.payment.payPeriodId == ""
            && back.notes == Some(if data.notes.Some? && data.notes.value != "" then data.notes.value else name)
            && ((data.totalPayment * 100.0).Floor as real == data.totalPayment * 100.0 && data.totalPayment != 0.0 ==>
                  back.totalPayment == data.totalPayment)
  {
    var p := PayPeriods.GetPayPeriodById(data.payment.payPeriodId).value;
    assert SaveRows(name, data, Some(contractorId)).value
        == (StatementRowFor(name, data, contractorId, p), SaveItems(data.summary));
    RowsRoundTrip(name, data, contractorId, p, contractor);
  }

  /** StatementRoundTrip for the rows written for period `p`. */
  lemma RowsRoundTrip(name: string, data: PayStatementData, contractorId: string, p: PayPeriods.PayPeriod, contractor: Option<StoredContractor>)
    requires forall i :: 0 <= i < |data.summary| ==> Preserved(data.summary[i])
    requires name != ""
    ensures var row := StatementRowFor(name, data, contractorId, p);
            var back := LoadStatement(Some(StoredStatementOf(row)), StoredItems(SaveItems(data.summary)), contractor).value;
            && back.summary == data.summary
            && back.payment.payPeriodId == ""
            && back.notes == Some(if data.notes.Some? && data.notes.value != "" then data.notes.value else name)
            && ((data.totalPayment * 100.0).Floor as real == data.totalPayment * 100.0 && data.totalPayment != 0.0 ==>
                  back.totalPayment == data.totalPayment)
  {
    var row, items := StatementRowFor(name, data, contractorId, p), SaveItems(data.summary);
    StatementRowSpec(name, data, contractorId, p);
    var ps := StoredStatementOf(row);
    LoadedParts(ps, StoredItems(items), contractor);
    ItemsRoundTrip(data.summary);
    if (data.totalPayment * 100.0).Floor as real == data.totalPayment * 100.0 && data.totalPayment != 0.0 {
      CentsExact(data.totalPayment, (data.totalPayment * 100.0).Floor);
    }
  }

  // ---------------------------------------------------------------------
  // Round trip up to order: the item query has no ORDER BY

  lemma LoadItemsAppend(a: seq<StoredItem>, b: seq<StoredItem>)
    ensures LoadItems(a + b) == LoadItems(a) + LoadItems(b)
  {
  }

  /** Loading item rows read back in any order gives the loaded lines in
      the corresponding order: the same lines, counted with multiplicity. */
  lemma {:induction false} LoadItemsPermuted(a: seq<StoredItem>, b: seq<StoredItem>)
    requires multiset(a) == multiset(b)
    ensures multiset(LoadItems(a)) == multiset(LoadItems(b))
    decreases |a|
  {
    if a == [] {
      assert |multiset(b)| == 0;
    } else {
      var k := PositionOf(b, a[0]);
      RemoveFirst(a, b, k);
      LoadItemsPermuted(a[1..], b[..k] + b[k + 1..]);
      LoadItemsRemove(b, k);
      LoadItemsHead(a);
    }
  }

  /** A row counted in `b` sits at some position of `b`. */
  lemma PositionOf(b: seq<StoredItem>, e: StoredItem) returns (k: nat)
    requires e in multiset(b)
    ensures k < |b| && b[k] == e
  {
    k :| k < |b| && b[k] == e;
  }

  lemma LoadItemsHead(a: seq<StoredItem>)
    requires a != []
    ensures multiset(LoadItems(a)) == multiset(LoadItems(a[1..])) + multiset{LoadItem(a[0])}
  {
    assert LoadItems(a) == [LoadItem(a[0])] + LoadItems(a[1..]);
  }

  /** Taking the first row of `a` out of `b` where it sits leaves the same
      rows on both sides. */
  lemma RemoveFirst(a: seq<StoredItem>, b: seq<StoredItem>, k: nat)
    requires a != [] && k < |b| && b[k] == a[0] && multiset(a) == multiset(b)
    ensures multiset(a[1..]) == multiset(b[..k] + b[k + 1..])
  {
    var x, y := b[..k], b[k + 1..];
    assert b == x + [b[k]] + y;
    assert multiset(b) == multiset(x + y) + multiset{a[0]};
    assert a == [a[0]] + a[1..];
    assert multiset(a) == multiset(a[1..]) + multiset{a[0]};
    assert multiset(a[1..]) == multiset(a) - multiset{a[0]};
    assert multiset(x + y) == multiset(b) - multiset{a[0]};
  }

  /** Loading `b` loads row `k` and the rows around it. */
  lemma LoadItemsRemove(b: seq<StoredItem>, k: nat)
    requires k < |b|
    ensures multiset(LoadItems(b)) == multiset(LoadItems(b[..k] + b[k + 1..])) + multiset{LoadItem(b[k])}
  {
    var x, y := b[..k], b[k + 1..];
    SplitAt(b, k);
    LoadItemsAppend(x + [b[k]], y);
    LoadItemsAppend(x, [b[k]]);
    LoadItemsAppend(x, y);
    assert LoadItems([b[k]]) == [LoadItem(b[k])];
  }

  lemma SplitAt(b: seq<StoredItem>, k: nat)
    requires k < |b|
    ensures b == b[..k] + [b[k]] + b[k + 1..]
  {
  }

  /** Whatever order the item rows come back in, a summary of preserved
      lines loads as the same lines, each as often as it was saved. */
  lemma ItemsRoundTripAnyOrder(summary: seq<SummaryItem>, read: seq<StoredItem>)
    requires forall i :: 0 <= i < |summary| ==> Preserved(summary[i])
    requires multiset(read) == multiset(StoredItems(SaveItems(summary)))
    ensures multiset(LoadItems(read)) == multiset(summary)
    ensures |LoadItems(read)| == |summary|
  {
    ItemsRoundTrip(summary);
    LoadItemsPermuted(read, StoredItems(SaveItems(summary)));
    assert |read| == |multiset(read)| == |StoredItems(SaveItems(summary))|;
  }

  /** The fields of a loaded statement that do not depend on the item rows,
      for any item rows read back. */
  lemma RowsLoaded(name: string, data: PayStatementData, contractorId: string, p: PayPeriods.PayPeriod, read: seq<StoredItem>, contractor: Option<StoredContractor>)
    requires name != ""
    ensures var back := LoadStatement(Some(StoredStatementOf(StatementRowFor(name, data, contractorId, p))), read, contractor).value;
            && back.summary == LoadItems(read)
            && back.payment.payPeriodId == ""
            && back.notes == Some(if data.notes.Some? && data.notes.value != "" then data.notes.value else name)
            && ((data.totalPayment * 100.0).Floor as real == data.totalPayment * 100.0 && data.totalPayment != 0.0 ==>
                  back.totalPayment == data.totalPayment)
  {
    StatementRowSpec(name, data, contractorId, p);
    LoadedParts(StoredStatementOf(StatementRowFor(name, data, contractorId, p)), read, contractor);
    if (data.totalPayment * 100.0).Floor as real == data.totalPayment * 100.0 && data.totalPayment != 0.0 {
      CentsExact(data.totalPayment, (data.totalPayment * 100.0).Floor);
    }
  }

  /** StatementRoundTrip for item rows read back in any order: the summary
      comes back up to order, and the other fields exactly. */
  lemma StatementRoundTripAnyOrder(name: string, data: PayStatementData, contractorId: string, read: seq<StoredItem>, contractor: Option<StoredContractor>)
    requires PayPeriods.GetPayPeriodById(data.payment.payPeriodId).Some?
    requires forall i :: 0 <= i < |data.summary| ==> Preserved(data.summary[i])
    requires name != ""
    requires multiset(read) == multiset(StoredItems(SaveRows(name, data, Some(contractorId)).value.1))
    ensures var rows := SaveRows(name, data, Some(contractorId)).value;
            var back := LoadStatement(Some(StoredStatementOf(rows.0)), read, contractor).value;
            && multiset(back.summary) == multiset(data.summary)
            && |back.summary| == |data.summary|
            && back.payment.payPeriodId == ""
            && back.notes == Some(if data.notes.Some? && data.notes.value != "" then data.notes.value else name)
            && ((data.totalPayment * 100.0).Floor as real == data.totalPayment * 100.0 && data.totalPayment != 0.0 ==>
                  back.totalPayment == data.totalPayment)
  {
    var p := PayPeriods.GetPayPeriodById(data.payment.payPeriodId).value;
    assert SaveRows(name, data, Some(contractorId)).value
        == (StatementRowFor(name, data, contractorId, p), SaveItems(data.summary));
    RowsLoaded(name, data, contractorId, p, read, contractor);
    ItemsRoundTripAnyOrder(data.summary, read);
  }

  /** A quantity of 0 is written as 1. */
  lemma ZeroQuantitySavedAsOne(item: SummaryItem)
    requires item.numberOfVisits == 0.0
    ensures SaveItem(item).quantity == 1.0
    ensures LoadItem(Stored(SaveItem(item))).numberOfVisits == 1.0
  {
  }
}
