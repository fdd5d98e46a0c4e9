/** The payroll generator screen: entries seeded from the selected
    contractor's active buildings, the visit and hour handlers (which, as on
    the quick-payroll screen, assign into shared entry objects), the running
    total and the generated statement. Unlike the quick-payroll screen its
    rates and quantities are optional, it labels per-visit details with the
    visit count, and it stores the raw end date as the pay-period id. */
module PayrollGenerator {
  import opened Text
  import opened Wrappers
  import opened Statement

  /** `x ?? 0`. */
  function Or0(x: Option<real>): real
  {
    if x.Some? then x.value else 0.0
  }

  function OrInt0(x: Option<int>): int
  {
    if x.Some? then x.value else 0
  }

  /** The value of one entry at a moment; visits are whole numbers (the
      visits input goes through `parseInt`). */
  datatype Entry = Entry(
    buildingName: string,
    payType: PayType,
    payPerVisit: Option<real>,
    hourlyRate: Option<real>,
    numberOfVisits: Option<int>,
    hours: Option<real>)

  class GeneratorEntry {
    var buildingName: string
    var payType: PayType
    var payPerVisit: Option<real>
    var hourlyRate: Option<real>
    var numberOfVisits: Option<int>
    var hours: Option<real>

    constructor (v: Entry)
      ensures Value() == v
    {
      buildingName := v.buildingName;
      payType := v.payType;
      payPerVisit := v.payPerVisit;
      hourlyRate := v.hourlyRate;
      numberOfVisits := v.numberOfVisits;
      hours := v.hours;
    }

    function Value(): Entry
      reads this
    {
      Entry(buildingName, payType, payPerVisit, hourlyRate, numberOfVisits, hours)
    }
  }

  function Values(es: seq<GeneratorEntry>): (r: seq<Entry>)
    reads es
    ensures |r| == |es|
    ensures forall i :: 0 <= i < |es| ==> r[i] == es[i].Value()
  {
    if es == [] then [] else [es[0].Value()] + Values(es[1..])
  }

  /** The entry seeded from a building: no visits and no hours yet. */
  function SeedEntry(b: BuildingAssignment): Entry
  {
    Entry(b.buildingName, PayTypeOrDefault(b.payType), Some(b.payPerVisit), Some(OrZero(b.hourlyRate)), Some(0), Some(0.0))
  }

  /** handleContractorSelect: one new entry per active building, in order. */
  method HandleContractorSelect(c: Contractor) returns (entries: seq<GeneratorEntry>)
    ensures |entries| == |ActiveBuildings(c.buildings)|
    ensures forall i :: 0 <= i < |entries| ==> entries[i].Value() == SeedEntry(ActiveBuildings(c.buildings)[i])
    ensures forall i :: 0 <= i < |entries| ==> fresh(entries[i])
    ensures forall i, j :: 0 <= i < j < |entries| ==> entries[i] != entries[j]
  {
    var bs := ActiveBuildings(c.buildings);
    entries := [];
    var i := 0;
    while i < |bs|
      invariant 0 <= i <= |bs| && |entries| == i
      invariant forall j :: 0 <= j < i ==> entries[j].Value() == SeedEntry(bs[j])
      invariant forall j :: 0 <= j < i ==> fresh(entries[j])
      invariant forall j, k :: 0 <= j < k < i ==> entries[j] != entries[k]
    {
      var e := new GeneratorEntry(SeedEntry(bs[i]));
      entries := entries + [e];
      i := i + 1;
    }
  }

  /** Seeded entries have every rate and quantity defined. */
  lemma SeedEntryDefined(b: BuildingAssignment)
    ensures var e := SeedEntry(b);
            e.payPerVisit.Some? && e.hourlyRate.Some? && e.numberOfVisits == Some(0) && e.hours == Some(0.0)
            && e.payType == (if b.payType == Some(Hourly) then Hourly else PerVisit)
  {
  }

  method UpdateVisitCount(entries: seq<GeneratorEntry>, index: nat, visits: int) returns (updated: seq<GeneratorEntry>)
    requires index < |entries|
    modifies entries[index]
    ensures updated == entries
    ensures entries[index].Value() == old(entries[index].Value()).(numberOfVisits := Some(visits))
    ensures forall j :: 0 <= j < |entries| && entries[j] != entries[index] ==> entries[j].Value() == old(entries[j].Value())
  {
    updated := entries;
    updated[index].numberOfVisits := Some(visits);
  }

  method UpdateHours(entries: seq<GeneratorEntry>, index: nat, hours: real) returns (updated: seq<GeneratorEntry>)
    requires index < |entries|
    modifies entries[index]
    ensures updated == entries
    ensures entries[index].Value() == old(entries[index].Value()).(hours := Some(hours))
    ensures forall j :: 0 <= j < |entries| && entries[j] != entries[index] ==> entries[j].Value() == old(entries[j].Value())
  {
    updated := entries;
    updated[index].hours := Some(hours);
  }

  /** The hours an hourly entry is billed for: `hours ?? numberOfVisits ?? 0`. */
  function BilledHours(e: Entry): real
  {
    if e.hours.Some? then e.hours.value else OrInt0(e.numberOfVisits) as real
  }

  /** The filter both the details and the summary apply. */
  predicate Billable(e: Entry)
  {
    (e.payType == PerVisit && OrInt0(e.numberOfVisits) > 0)
    || (e.payType == Hourly && BilledHours(e) > 0.0)
  }

  function BillableEntries(es: seq<Entry>): (r: seq<Entry>)
    ensures |r| <= |es|
    ensures forall e :: e in r <==> e in es && Billable(e)
  {
    if es == [] then []
    else if Billable(es[0]) then [es[0]] + BillableEntries(es[1..])
    else BillableEntries(es[1..])
  }

  /** The details line: "<name> - <visits> visits" at `rate × visits`, or
      the name at `rate × hours`. */
  function DetailOf(e: Entry): PaymentDetail
  {
    if e.payType == Hourly then
      PaymentDetail(e.buildingName, Or0(e.hourlyRate) * BilledHours(e), None)
    else
      var visits := OrInt0(e.numberOfVisits);
      PaymentDetail(e.buildingName + " - " + IntToString(visits) + " visits", Or0(e.payPerVisit) * visits as real, None)
  }

  /** The summary line: the name (tagged for hourly lines), rate, quantity
      and total, with no quantity suffix. The hourly quantity here is
      `hours ?? 0`, not the details' fallback to the visit count. */
  function SummaryOf(e: Entry): SummaryItem
  {
    if e.payType == Hourly then
      SummaryItem(e.buildingName + HourlyTag, Or0(e.hourlyRate), Or0(e.hours), None, Or0(e.hourlyRate) * Or0(e.hours))
    else
      var visits := OrInt0(e.numberOfVisits) as real;
      SummaryItem(e.buildingName, Or0(e.payPerVisit), visits, None, Or0(e.payPerVisit) * visits)
  }

  function DetailsOf(es: seq<Entry>): (r: seq<PaymentDetail>)
    ensures |r| == |es|
    ensures forall i :: 0 <= i < |es| ==> r[i] == DetailOf(es[i])
  {
    if es == [] then [] else [DetailOf(es[0])] + DetailsOf(es[1..])
  }

  function SummariesOf(es: seq<Entry>): (r: seq<SummaryItem>)
    ensures |r| == |es|
    ensures forall i :: 0 <= i < |es| ==> r[i] == SummaryOf(es[i])
  {
    if es == [] then [] else [SummaryOf(es[0])] + SummariesOf(es[1..])
  }

  /** totalAmount: every line's amount, billed or not. */
  function TotalAmount(es: seq<Entry>): real
  {
    if es == [] then 0.0 else TotalAmount(es[..|es| - 1]) + DetailOf(es[|es| - 1]).amount
  }

  /** generatePayStatement: nothing without a contractor or an end date;
      the period id is the end date itself. */
  function Generate(selected: Option<Contractor>, endDate: string, es: seq<Entry>): Option<PayStatementData>
  {
    if selected.None? || endDate == "" then None
    else
      var c := selected.value;
      var billable := BillableEntries(es);
      var details := DetailsOf(billable);
      Some(PayStatementData(
        CompanyName, Company, CompanyPhone,
        Payee(c.name, Address(None, c.address.city, c.address.state, c.address.zipCode)),
        Payment(endDate, c.paymentInfo.paymentMethod),
        details,
        SummariesOf(billable),
        SumAmounts(details),
        None))
  }

  /** Details and summary come from the same filtered entries: equal
      length, line i of each from the same building, no quantity suffix,
      and the period id is the raw end date. */
  lemma GenerateSpec(c: Contractor, endDate: string, es: seq<Entry>)
    requires endDate != ""
    ensures var data := Generate(Some(c), endDate, es).value;
            var billable := BillableEntries(es);
            && |data.paymentDetails| == |data.summary| == |billable|
            && (forall i :: 0 <= i < |billable| && billable[i].payType == PerVisit ==>
                  data.paymentDetails[i].description == billable[i].buildingName + " - " + IntToString(OrInt0(billable[i].numberOfVisits)) + " visits"
                  && data.summary[i].description == billable[i].buildingName)
            && (forall i :: 0 <= i < |billable| && billable[i].payType == Hourly ==>
                  data.paymentDetails[i].description == billable[i].buildingName
                  && data.summary[i].description == billable[i].buildingName + HourlyTag)
            && (forall i :: 0 <= i < |billable| ==> data.summary[i].qtySuffix == None)
            && data.totalPayment == SumAmounts(data.paymentDetails)
            && data.payment.payPeriodId == endDate
  {
  }

  lemma GenerateSkipped(selected: Option<Contractor>, endDate: string, es: seq<Entry>)
    ensures Generate(selected, endDate, es).None? <==> selected.None? || endDate == ""
  {
  }

  /** With hours defined on every entry, as seeding and the hours handler
      keep them, the details total equals the sum of the summary totals. */
  lemma {:induction false} DetailsMatchSummary(es: seq<Entry>)
    requires forall e :: e in es ==> e.hours.Some?
    ensures SumAmounts(DetailsOf(es)) == SumTotals(SummariesOf(es))
    decreases |es|
  {
    if es != [] {
      var init := es[..|es| - 1];
      var last := es[|es| - 1];
      assert forall e :: e in init ==> e in es;
      DetailsMatchSummary(init);
      assert last in es;
      LineAgrees(last);
      LastSplit(es);
      AmountsSnoc(init, last);
      TotalsSnoc(init, last);
    }
  }

  /** A non-empty list is its front with its last element appended. */
  lemma LastSplit(es: seq<Entry>)
    requires es != []
    ensures es == es[..|es| - 1] + [es[|es| - 1]]
  {
  }

  lemma AmountsSnoc(init: seq<Entry>, last: Entry)
    ensures SumAmounts(DetailsOf(init + [last])) == SumAmounts(DetailsOf(init)) + DetailOf(last).amount
  {
    DetailsAppend(init, [last]);
    SumAmountsAppend(DetailsOf(init), DetailsOf([last]));
    SingleLine(last);
  }

  lemma TotalsSnoc(init: seq<Entry>, last: Entry)
    ensures SumTotals(SummariesOf(init + [last])) == SumTotals(SummariesOf(init)) + SummaryOf(last).total
  {
    SummariesAppend(init, [last]);
    SumTotalsAppend(SummariesOf(init), SummariesOf([last]));
    SingleLine(last);
  }

  lemma SingleLine(e: Entry)
    ensures SumAmounts(DetailsOf([e])) == DetailOf(e).amount
    ensures SumTotals(SummariesOf([e])) == SummaryOf(e).total
  {
    assert DetailsOf([e])[..0] == [];
    assert SummariesOf([e])[..0] == [];
  }

  lemma LineAgrees(e: Entry)
    requires e.hours.Some?
    ensures DetailOf(e).amount == SummaryOf(e).total
  {
  }

  lemma DetailsAppend(a: seq<Entry>, b: seq<Entry>)
    ensures DetailsOf(a + b) == DetailsOf(a) + DetailsOf(b)
  {
    var l := DetailsOf(a + b);
    var r := DetailsOf(a) + DetailsOf(b);
    forall i | 0 <= i < |l| ensures l[i] == r[i] {
      if i < |a| {
        assert (a + b)[i] == a[i];
      } else {
        assert (a + b)[i] == b[i - |a|];
      }
    }
    assert l == r;
  }

  lemma SummariesAppend(a: seq<Entry>, b: seq<Entry>)
    ensures SummariesOf(a + b) == SummariesOf(a) + SummariesOf(b)
  {
    var l := SummariesOf(a + b);
    var r := SummariesOf(a) + SummariesOf(b);
    forall i | 0 <= i < |l| ensures l[i] == r[i] {
      if i < |a| {
        assert (a + b)[i] == a[i];
      } else {
        assert (a + b)[i] == b[i - |a|];
      }
    }
    assert l == r;
  }

  /** The generated statement's total is the sum of its summary totals
      whenever hours are defined. */
  lemma GeneratedTotalMatches(c: Contractor, endDate: string, es: seq<Entry>)
    requires endDate != ""
    requires forall e :: e in es ==> e.hours.Some?
    ensures Generate(Some(c), endDate, es).value.totalPayment == SumTotals(Generate(Some(c), endDate, es).value.summary)
  {
    var billable := BillableEntries(es);
    assert forall e :: e in billable ==> e.hours.Some?;
    DetailsMatchSummary(billable);
  }

  /** Without hours, an hourly line is billed on its visit count in the
      details but at 0 hours in the summary. */
  lemma UndefinedHoursDiffer()
    ensures var e := Entry("B", Hourly, None, Some(10.0), Some(2), None);
            Billable(e) && DetailOf(e).amount == 20.0 && SummaryOf(e).total == 0.0
  {
  }

  /** The quantity a line is billed on. */
  function Quantity(e: Entry): real
  {
    if e.payType == Hourly then BilledHours(e) else OrInt0(e.numberOfVisits) as real
  }

  lemma {:induction false} BillableAppend(a: seq<Entry>, b: seq<Entry>)
    ensures BillableEntries(a + b) == BillableEntries(a) + BillableEntries(b)
    decreases |a|
  {
    if a == [] {
      assert a + b == b;
    } else {
      assert (a + b)[0] == a[0];
      assert (a + b)[1..] == a[1..] + b;
      BillableAppend(a[1..], b);
    }
  }

  /** With no negative quantity, the running total shown on the screen is
      the total of the generated details. */
  lemma {:induction false} TotalAmountMatchesDetails(es: seq<Entry>)
    requires forall e :: e in es ==> Quantity(e) >= 0.0
    ensures TotalAmount(es) == SumAmounts(DetailsOf(BillableEntries(es)))
    decreases |es|
  {
    if es != [] {
      var init := es[..|es| - 1];
      var last := es[|es| - 1];
      assert es == init + [last];
      assert forall e :: e in init ==> e in es;
      TotalAmountMatchesDetails(init);
      assert last in es;
      LastLine(last);
      BilledSnoc(init, last);
    }
  }

  lemma BilledSnoc(init: seq<Entry>, last: Entry)
    ensures SumAmounts(DetailsOf(BillableEntries(init + [last])))
            == SumAmounts(DetailsOf(BillableEntries(init))) + SumAmounts(DetailsOf(BillableEntries([last])))
  {
    BillableAppend(init, [last]);
    DetailsAppend(BillableEntries(init), BillableEntries([last]));
    SumAmountsAppend(DetailsOf(BillableEntries(init)), DetailsOf(BillableEntries([last])));
  }

  lemma LastLine(e: Entry)
    requires Quantity(e) >= 0.0
    ensures SumAmounts(DetailsOf(BillableEntries([e]))) == DetailOf(e).amount
  {
    assert [e][1..] == [];
    if Billable(e) {
      SingleLine(e);
    } else if e.payType == Hourly {
      assert BilledHours(e) == 0.0;
    } else {
      assert OrInt0(e.numberOfVisits) == 0;
    }
  }
}
