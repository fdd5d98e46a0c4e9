/** The home workspace: the statement seeded from the selected contractor
    and the two effects that keep the top bar's pay period and the form's
    pay period in step. */
module HomeLayout {
  import opened Wrappers
  import opened Statement
  import opened JsNumber
  import PayStatementForm

  /** One seeded detail line per active building; no notes. */
  function SeedDetail(b: BuildingAssignment): PaymentDetail
  {
    var hourly := b.payType == Some(Hourly);
    PaymentDetail(
      b.buildingName + (if hourly then HourlyTag else ""),
      if hourly then OrZero(b.hourlyRate) else b.payPerVisit,
      None)
  }

  function SeedDetails(bs: seq<BuildingAssignment>): (r: seq<PaymentDetail>)
    ensures |r| == |bs|
    ensures forall i :: 0 <= i < |bs| ==> r[i] == SeedDetail(bs[i])
  {
    if bs == [] then [] else [SeedDetail(bs[0])] + SeedDetails(bs[1..])
  }

  /** `a || b || ""` for the top-bar id and the default period's id. */
  function ChoosePeriodId(topBarId: string, defaultId: Option<string>): string
  {
    if topBarId != "" then topBarId
    else if defaultId.Some? then defaultId.value
    else ""
  }

  /** The `initialData` memo. */
  function InitialData(selected: Option<Contractor>, topBarId: string, defaultId: Option<string>): Option<PayStatementData>
  {
    if selected.None? then None
    else
      var c := selected.value;
      var seeded := SeedDetails(ActiveBuildings(c.buildings));
      Some(PayStatementData(
        CompanyName, Company, CompanyPhone,
        Payee(c.name, c.address),
        Payment(ChoosePeriodId(topBarId, defaultId), c.paymentInfo.paymentMethod),
        if |seeded| > 0 then seeded else [PayStatementForm.BlankDetail],
        [SummaryItem("[name of building]", 0.0, 0.0, None, 0.0)],
        0.0,
        Some("")))
  }

  /** Nothing is seeded without a selected contractor. */
  lemma InitialDataNone(topBarId: string, defaultId: Option<string>)
    ensures InitialData(None, topBarId, defaultId) == None
  {
  }

  /** One line per active building in building order, never an empty list,
      the period chosen from the top bar then the default, and the
      contractor's name, address and payment method. */
  lemma InitialDataSpec(c: Contractor, topBarId: string, defaultId: Option<string>)
    ensures var data := InitialData(Some(c), topBarId, defaultId).value;
            var active := ActiveBuildings(c.buildings);
            && |data.paymentDetails| >= 1
            && (|active| > 0 ==> |data.paymentDetails| == |active|)
            && (|active| > 0 ==> forall i :: 0 <= i < |active| ==> data.paymentDetails[i] == SeedDetail(active[i]))
            && (active == [] ==> data.paymentDetails == [PaymentDetail("", 0.0, None)])
            && (topBarId != "" ==> data.payment.payPeriodId == topBarId)
            && (topBarId == "" && defaultId.Some? ==> data.payment.payPeriodId == defaultId.value)
            && (topBarId == "" && defaultId.None? ==> data.payment.payPeriodId == "")
            && data.payment.paymentMethod == c.paymentInfo.paymentMethod
            && data.paidTo == Payee(c.name, c.address)
  {
  }

  /** A seeded line names the building, tagged " (hourly)" exactly for
      hourly buildings, and carries the hourly rate (0 when missing) or the
      per-visit rate. */
  lemma SeedDetailSpec(b: BuildingAssignment)
    ensures var d := SeedDetail(b);
            && (b.payType == Some(Hourly) ==> d.description == b.buildingName + HourlyTag)
            && (b.payType != Some(Hourly) ==> d.description == b.buildingName)
            && (b.payType == Some(Hourly) && b.hourlyRate.Some? ==> d.amount == b.hourlyRate.value)
            && (b.payType == Some(Hourly) && b.hourlyRate.None? ==> d.amount == 0.0)
            && (b.payType != Some(Hourly) ==> d.amount == b.payPerVisit)
            && d.notes == None
  {
  }

  /** The form reads a seeded line as per-visit with quantity 1, so an
      hourly building's name keeps its one " (hourly)" tag and gets no
      "hrs" suffix. */
  lemma SeedDetailDerives(b: BuildingAssignment)
    ensures var d := SeedDetail(b);
            PayStatementForm.DeriveItem(d) == SummaryItem(d.description, d.amount, 1.0, None, d.amount)
  {
    var d := SeedDetail(b);
    PayStatementForm.ParseMetaEmpty();
    assert PayStatementForm.ParseMeta(d.notes) == PayStatementForm.DefaultMeta;
    assert One.Value() == 1.0;
  }

  /** The top-bar effect on the form data. */
  function SyncFromTopBar(prev: Option<PayStatementData>, topBarId: string): (r: Option<PayStatementData>)
    ensures prev.None? ==> r.None?
    ensures prev.Some? && prev.value.payment.payPeriodId == topBarId ==> r == prev
    ensures prev.Some? ==> r == Some(prev.value.(payment := prev.value.payment.(payPeriodId := topBarId)))
  {
    if prev.None? then prev
    else if prev.value.payment.payPeriodId == topBarId then prev
    else Some(prev.value.(payment := prev.value.payment.(payPeriodId := topBarId)))
  }

  /** The form-data effect on the top bar's id. */
  function SyncToTopBar(data: Option<PayStatementData>, topBarId: string): (r: string)
    ensures data.None? ==> r == topBarId
    ensures data.Some? && data.value.payment.payPeriodId != "" ==> r == data.value.payment.payPeriodId
    ensures data.Some? && data.value.payment.payPeriodId == "" ==> r == topBarId
  {
    if data.None? then topBarId
    else
      var id := data.value.payment.payPeriodId;
      if id != "" && id != topBarId then id else topBarId
  }

  /** After the form-data effect has run, the top-bar effect changes
      nothing: the two effects settle after one round. */
  lemma SyncSettles(data: Option<PayStatementData>, topBarId: string)
    requires data.None? || data.value.payment.payPeriodId != ""
    ensures SyncFromTopBar(data, SyncToTopBar(data, topBarId)) == data
  {
  }

  /** The top-bar effect keeps the summary and total consistent with the
      details. */
  lemma SyncKeepsConsistent(prev: PayStatementData, topBarId: string)
    requires PayStatementForm.Consistent(prev)
    ensures PayStatementForm.Consistent(SyncFromTopBar(Some(prev), topBarId).value)
  {
  }
}
