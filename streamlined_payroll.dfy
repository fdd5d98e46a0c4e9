/** The quick-payroll screen: visit entries seeded from a contractor's
    active buildings, handlers that change one field of one entry, the
    running total, and the statement generated from the entries. The
    handlers copy the list of entries but assign through the copy into the
    shared entry objects, so entries are objects here and the list holds
    references. */
module StreamlinedPayroll {
  import opened Wrappers
  import opened Statement
  import PayPeriods
  import Calendar

  /** The value of one entry at a moment. */
  datatype Entry = Entry(
    buildingName: string,
    payType: PayType,
    payPerVisit: real,
    hourlyRate: real,
    numberOfVisits: real,
    hours: real,
    notes: string)

  class VisitEntry {
    var buildingName: string
    var payType: PayType
    var payPerVisit: real
    var hourlyRate: real
    var numberOfVisits: real
    var hours: real
    var notes: string

    constructor (v: Entry)
      ensures Value() == v
    {
      buildingName := v.buildingName;
      payType := v.payType;
      payPerVisit := v.payPerVisit;
      hourlyRate := v.hourlyRate;
      numberOfVisits := v.numberOfVisits;
      hours := v.hours;
      notes := v.notes;
    }

    function Value(): Entry
      reads this
    {
      Entry(buildingName, payType, payPerVisit, hourlyRate, numberOfVisits, hours, notes)
    }
  }

  /** The values of a list of entries. */
  function Values(es: seq<VisitEntry>): (r: seq<Entry>)
    reads es
    ensures |r| == |es|
    ensures forall i :: 0 <= i < |es| ==> r[i] == es[i].Value()
  {
    if es == [] then [] else [es[0].Value()] + Values(es[1..])
  }

  /** No entry object appears twice in the list. */
  predicate Distinct(es: seq<VisitEntry>)
  {
    forall i, j :: 0 <= i < j < |es| ==> es[i] != es[j]
  }

  /** The entry seeded from a building: its type (perVisit when unset) and
      rates, no visits, no hours and no notes. */
  function SeedEntry(b: BuildingAssignment): Entry
  {
    Entry(b.buildingName, PayTypeOrDefault(b.payType), b.payPerVisit, OrZero(b.hourlyRate), 0.0, 0.0, "")
  }

  function SeedEntries(bs: seq<BuildingAssignment>): (r: seq<Entry>)
    ensures |r| == |bs|
    ensures forall i :: 0 <= i < |bs| ==> r[i] == SeedEntry(bs[i])
  {
    if bs == [] then [] else [SeedEntry(bs[0])] + SeedEntries(bs[1..])
  }

  /** The seeding effect: one new entry per active building, in order. */
  method Seed(c: Contractor) returns (entries: seq<VisitEntry>)
    ensures Values(entries) == SeedEntries(ActiveBuildings(c.buildings))
    ensures Distinct(entries)
    ensures forall i :: 0 <= i < |entries| ==> fresh(entries[i])
  {
    var bs := ActiveBuildings(c.buildings);
    entries := [];
    var i := 0;
    while i < |bs|
      invariant 0 <= i <= |bs| && |entries| == i
      invariant forall j :: 0 <= j < i ==> entries[j].Value() == SeedEntry(bs[j])
      invariant forall j :: 0 <= j < i ==> fresh(entries[j])
      invariant Distinct(entries)
    {
      var e := new VisitEntry(SeedEntry(bs[i]));
      entries := entries + [e];
      i := i + 1;
    }
  }

  /** updatePayType: the entry at `index` gets the new type; every entry
      object other than that one is untouched. */
  method UpdatePayType(entries: seq<VisitEntry>, index: nat, t: PayType) returns (updated: seq<VisitEntry>)
    requires index < |entries|
    modifies entries[index]
    ensures updated == entries
    ensures entries[index].Value() == old(entries[index].Value()).(payType := t)
    ensures forall j :: 0 <= j < |entries| && entries[j] != entries[index] ==> entries[j].Value() == old(entries[j].Value())
  {
    updated := entries;
    updated[index].payType := t;
  }

  /** updateRate: the per-visit rate of a per-visit entry, the hourly rate
      of an hourly one. */
  method UpdateRate(entries: seq<VisitEntry>, index: nat, value: real) returns (updated: seq<VisitEntry>)
    requires index < |entries|
    modifies entries[index]
    ensures updated == entries
    ensures old(entries[index].payType) == PerVisit ==> entries[index].Value() == old(entries[index].Value()).(payPerVisit := value)
    ensures old(entries[index].payType) == Hourly ==> entries[index].Value() == old(entries[index].Value()).(hourlyRate := value)
    ensures forall j :: 0 <= j < |entries| && entries[j] != entries[index] ==> entries[j].Value() == old(entries[j].Value())
  {
    updated := entries;
    if updated[index].payType == PerVisit {
      updated[index].payPerVisit := value;
    } else {
      updated[index].hourlyRate := value;
    }
  }

  method UpdateHours(entries: seq<VisitEntry>, index: nat, hours: real) returns (updated: seq<VisitEntry>)
    requires index < |entries|
    modifies entries[index]
    ensures updated == entries
    ensures entries[index].Value() == old(entries[index].Value()).(hours := hours)
    ensures forall j :: 0 <= j < |entries| && entries[j] != entries[index] ==> entries[j].Value() == old(entries[j].Value())
  {
    updated := entries;
    updated[index].hours := hours;
  }

  method UpdateVisitCount(entries: seq<VisitEntry>, index: nat, visits: real) returns (updated: seq<VisitEntry>)
    requires index < |entries|
    modifies entries[index]
    ensures updated == entries
    ensures entries[index].Value() == old(entries[index].Value()).(numberOfVisits := visits)
    ensures forall j :: 0 <= j < |entries| && entries[j] != entries[index] ==> entries[j].Value() == old(entries[j].Value())
  {
    updated := entries;
    updated[index].numberOfVisits := visits;
  }

  method UpdateNotes(entries: seq<VisitEntry>, index: nat, notes: string) returns (updated: seq<VisitEntry>)
    requires index < |entries|
    modifies entries[index]
    ensures updated == entries
    ensures entries[index].Value() == old(entries[index].Value()).(notes := notes)
    ensures forall j :: 0 <= j < |entries| && entries[j] != entries[index] ==> entries[j].Value() == old(entries[j].Value())
  {
    updated := entries;
    updated[index].notes := notes;
  }

  /** On a list without repeated objects, a handler's change to entry
      `index` is the only change to the list's values. */
  lemma HandlerChangesOneValue(before: seq<Entry>, after: seq<Entry>, es: seq<VisitEntry>, index: nat, v: Entry)
    requires Distinct(es) && index < |es| && |before| == |after| == |es|
    requires after[index] == v
    requires forall j :: 0 <= j < |es| && es[j] != es[index] ==> after[j] == before[j]
    ensures after == before[index := v]
  {
  }

  // ---------------------------------------------------------------------
  // Totals and the generated statement

  /** The amount a line contributes. */
  function LineTotal(e: Entry): real
  {
    if e.payType == Hourly then e.hourlyRate * e.hours else e.payPerVisit * e.numberOfVisits
  }

  /** The quantity that decides whether a line is billed. */
  function Quantity(e: Entry): real
  {
    if e.payType == Hourly then e.hours else e.numberOfVisits
  }

  /** totalAmount: the sum of all line totals, billed or not. */
  function TotalAmount(es: seq<Entry>): real
  {
    if es == [] then 0.0 else TotalAmount(es[..|es| - 1]) + LineTotal(es[|es| - 1])
  }

  /** The entries whose type-specific quantity is positive, in order. */
  function Billed(es: seq<Entry>): (r: seq<Entry>)
    ensures |r| <= |es|
    ensures forall e :: e in r <==> e in es && Quantity(e) > 0.0
  {
    if es == [] then []
    else
      var rest := Billed(es[..|es| - 1]);
      assert forall e :: e in es <==> e in es[..|es| - 1] || e == es[|es| - 1] by {
        assert es == es[..|es| - 1] + [es[|es| - 1]];
      }
      if Quantity(es[|es| - 1]) > 0.0 then rest + [es[|es| - 1]] else rest
  }

  /** The filter distributes over concatenation, so the billed entries stay
      in order and appear once per entry. */
  lemma {:induction false} BilledAppend(a: seq<Entry>, b: seq<Entry>)
    ensures Billed(a + b) == Billed(a) + Billed(b)
    decreases |b|
  {
    if b == [] {
      assert a + b == a;
    } else {
      var init, last := b[..|b| - 1], b[|b| - 1];
      assert (a + b)[..|a + b| - 1] == a + init;
      assert (a + b)[|a + b| - 1] == last;
      BilledAppend(a, init);
    }
  }

  /** The summary line of a billed entry. */
  function SummaryOf(e: Entry): SummaryItem
  {
    if e.payType == Hourly then
      SummaryItem(e.buildingName + HourlyTag, e.hourlyRate, e.hours, Some("hrs"), LineTotal(e))
    else
      SummaryItem(e.buildingName, e.payPerVisit, e.numberOfVisits, None, LineTotal(e))
  }

  function Summaries(es: seq<Entry>): (r: seq<SummaryItem>)
    ensures |r| == |es|
    ensures forall i :: 0 <= i < |es| ==> r[i] == SummaryOf(es[i])
  {
    if es == [] then [] else [SummaryOf(es[0])] + Summaries(es[1..])
  }

  /** The details line of a summary line: the description without its
      "(hourly)" tag and the line total. */
  function DetailOf(s: SummaryItem): PaymentDetail
  {
    PaymentDetail(StripHourly(s.description), s.total, None)
  }

  function Details(ss: seq<SummaryItem>): (r: seq<PaymentDetail>)
    ensures |r| == |ss|
    ensures forall i :: 0 <= i < |ss| ==> r[i] == DetailOf(ss[i])
  {
    if ss == [] then [] else [DetailOf(ss[0])] + Details(ss[1..])
  }

  /** generatePayStatement: nothing without a contractor or a period id. */
  function Generate(selected: Option<Contractor>, periodId: string, es: seq<Entry>): Option<PayStatementData>
  {
    if selected.None? || periodId == "" then None
    else
      var c := selected.value;
      var summary := Summaries(Billed(es));
      Some(PayStatementData(
        CompanyName, Company, CompanyPhone,
        Payee(c.name, c.address),
        Payment(periodId, c.paymentInfo.paymentMethod),
        Details(summary),
        summary,
        TotalAmount(es),
        None))
  }

  /** Generation is skipped without a contractor or a period id. */
  lemma GenerateSkipped(selected: Option<Contractor>, periodId: string, es: seq<Entry>)
    ensures Generate(selected, periodId, es).None? <==> selected.None? || periodId == ""
  {
  }

  /** The summary holds the billed entries in order, each line's rate,
      quantity, suffix and total chosen by its type; the details match the
      summary line by line; the total is totalAmount over all entries. */
  lemma GenerateSpec(c: Contractor, periodId: string, es: seq<Entry>)
    requires periodId != ""
    ensures var data := Generate(Some(c), periodId, es).value;
            var billed := Billed(es);
            && |data.summary| == |billed| == |data.paymentDetails|
            && (forall i :: 0 <= i < |billed| && billed[i].payType == Hourly ==>
                  data.summary[i] == SummaryItem(billed[i].buildingName + HourlyTag, billed[i].hourlyRate, billed[i].hours, Some("hrs"), billed[i].hourlyRate * billed[i].hours))
            && (forall i :: 0 <= i < |billed| && billed[i].payType == PerVisit ==>
                  data.summary[i] == SummaryItem(billed[i].buildingName, billed[i].payPerVisit, billed[i].numberOfVisits, None, billed[i].payPerVisit * billed[i].numberOfVisits))
            && (forall i :: 0 <= i < |billed| ==>
                  data.paymentDetails[i] == PaymentDetail(StripHourly(data.summary[i].description), data.summary[i].total, None))
            && data.totalPayment == TotalAmount(es)
            && data.payment == Payment(periodId, c.paymentInfo.paymentMethod)
  {
  }

  /** For a building name not ending in white space, the details line of
      an hourly entry shows the bare building name. */
  lemma HourlyDetailName(e: Entry)
    requires e.payType == Hourly
    requires e.buildingName == [] || !Text.IsWhitespace(e.buildingName[|e.buildingName| - 1])
    ensures DetailOf(SummaryOf(e)).description == e.buildingName
  {
    StripHourlyTag(e.buildingName);
  }

  /** When no quantity is negative, the statement's total equals the sum
      of its summary totals: unbilled lines then contribute 0. */
  lemma {:induction false} TotalMatchesSummary(es: seq<Entry>)
    requires forall e :: e in es ==> Quantity(e) >= 0.0
    ensures TotalAmount(es) == SumTotals(Summaries(Billed(es)))
  {
    if es != [] {
      var init := es[..|es| - 1];
      var last := es[|es| - 1];
      assert forall e :: e in init ==> e in es;
      TotalMatchesSummary(init);
      if Quantity(last) > 0.0 {
        SummariesAppend(Billed(init), [last]);
        SumTotalsAppend(Summaries(Billed(init)), Summaries([last]));
        assert Summaries([last]) == [SummaryOf(last)];
        assert SumTotals([SummaryOf(last)]) == LineTotal(last) by {
          assert [SummaryOf(last)][..0] == [];
        }
      } else {
        assert last in es;
        UnbilledLine(last);
      }
    }
  }

  lemma UnbilledLine(e: Entry)
    requires 0.0 <= Quantity(e) && !(Quantity(e) > 0.0)
    ensures LineTotal(e) == 0.0
  {
    if e.payType == Hourly {
      assert e.hours == 0.0;
    } else {
      assert e.numberOfVisits == 0.0;
    }
  }

  lemma SummariesAppend(a: seq<Entry>, b: seq<Entry>)
    ensures Summaries(a + b) == Summaries(a) + Summaries(b)
  {
    var l := Summaries(a + b);
    var r := Summaries(a) + Summaries(b);
    forall i | 0 <= i < |l| ensures l[i] == r[i] {
      if i < |a| {
        assert (a + b)[i] == a[i];
      } else {
        assert (a + b)[i] == b[i - |a|];
      }
    }
    assert l == r;
  }

  /** A negative quantity breaks that equality: one per-visit line at 10
      with -1 visits gives a total of -10 but an empty summary. */
  lemma NegativeQuantityTotal()
    ensures var es := [Entry("A", PerVisit, 10.0, 0.0, -1.0, 0.0, "")];
            TotalAmount(es) == -10.0 && Summaries(Billed(es)) == []
  {
    var es := [Entry("A", PerVisit, 10.0, 0.0, -1.0, 0.0, "")];
    assert es[..0] == [];
  }

  /** The period the screen starts with: the default period, else the
      first available one, else none. */
  function InitialPeriodId(now: Calendar.Instant): string
  {
    var d := PayPeriods.GetDefaultPayPeriod(now);
    var available := PayPeriods.GetAvailablePayPeriods(now);
    if d.Some? then d.value.id else FirstIdOrEmpty(available)
  }

  /** `available[0]?.id || ""`. */
  function FirstIdOrEmpty(ps: seq<PayPeriods.PayPeriod>): string
  {
    if ps != [] then ps[0].id else ""
  }

  /** Whenever some period is available, the screen starts with the
      default period's id. */
  lemma InitialPeriodIdDefault(now: Calendar.Instant)
    requires PayPeriods.GetAvailablePayPeriods(now) != []
    ensures PayPeriods.GetDefaultPayPeriod(now).Some?
    ensures InitialPeriodId(now) == PayPeriods.GetDefaultPayPeriod(now).value.id
  {
  }
}
