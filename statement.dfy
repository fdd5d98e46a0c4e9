/** The records a pay statement is made of, the contractor record that seeds
    one, and the helpers several screens share: the "(hourly)" suffix and the
    sums over summary totals and detail amounts. Money and quantities are
    real numbers. */
module Statement {
  import opened Text
  import opened Wrappers

  datatype PayType = PerVisit | Hourly

  /** `payType || "perVisit"`. */
  function PayTypeOrDefault(t: Option<PayType>): PayType
  {
    if t.Some? then t.value else PerVisit
  }

  datatype PaymentDetail = PaymentDetail(description: string, amount: real, notes: Option<string>)

  datatype SummaryItem = SummaryItem(
    description: string,
    payPerVisit: real,
    numberOfVisits: real,
    qtySuffix: Option<string>,
    total: real)

  datatype CompanyAddress = CompanyAddress(street: string, suite: Option<string>, city: string, state: string, zipCode: string)

  datatype Address = Address(street: Option<string>, city: string, state: string, zipCode: string)

  datatype Payee = Payee(name: string, address: Address)

  datatype Payment = Payment(payPeriodId: string, paymentMethod: string)

  datatype PayStatementData = PayStatementData(
    companyName: string,
    companyAddress: CompanyAddress,
    companyPhone: string,
    paidTo: Payee,
    payment: Payment,
    paymentDetails: seq<PaymentDetail>,
    summary: seq<SummaryItem>,
    totalPayment: real,
    notes: Option<string>)

  datatype BuildingAssignment = BuildingAssignment(
    buildingName: string,
    payType: Option<PayType>,
    payPerVisit: real,
    isActive: bool,
    hourlyRate: Option<real>)

  datatype PaymentInfo = PaymentInfo(paymentMethod: string, accountLastFour: string)

  datatype Contractor = Contractor(
    id: string,
    name: string,
    address: Address,
    paymentInfo: PaymentInfo,
    buildings: seq<BuildingAssignment>,
    isActive: bool,
    dateAdded: string,
    notes: Option<string>,
    googleDriveFolderId: Option<string>)

  // The company block every seeded statement carries.
  const CompanyName: string := "ELEMENT CLEANING SYSTEMS LLC"
  const Company: CompanyAddress := CompanyAddress("1400 112th Ave Se", Some("Suite 100"), "Bellevue", "WA", "98004")
  const CompanyPhone: string := "425-591-9427"

  /** `x || 0` for an optional number. */
  function OrZero(x: Option<real>): real
  {
    if x.Some? then x.value else 0.0
  }

  /** The suffix the generators append to hourly building names. */
  const HourlyTag: string := " (hourly)"

  /** `s.replace(/\s*\(hourly\)$/i, "")`: a trailing "(hourly)" in any letter
      case goes, together with the white space before it. */
  function StripHourly(s: string): (r: string)
    ensures |r| <= |s| && r == s[..|r|]
  {
    if |s| >= 8 && LowerStr(s[|s| - 8..]) == "(hourly)" then
      TrimEndPrefix(s[..|s| - 8]);
      TrimEnd(s[..|s| - 8])
    else s
  }

  /** The summary descriptions the generators build come back to the
      building name. */
  lemma StripHourlyTag(name: string)
    requires name == [] || !IsWhitespace(name[|name| - 1])
    ensures StripHourly(name + HourlyTag) == name
  {
    var s := name + HourlyTag;
    assert s[|s| - 8..] == "(hourly)";
    assert s[..|s| - 8] == name + " ";
    assert IsWhitespace(' ');
    assert TrimEnd(name + " ") == TrimEnd(name) by {
      assert (name + " ")[..|name + " "| - 1] == name;
    }
  }

  /** A description not ending in "(hourly)" is left alone. */
  lemma StripHourlyOther(s: string)
    requires |s| < 8 || LowerStr(s[|s| - 8..]) != "(hourly)"
    ensures StripHourly(s) == s
  {
  }

  /** The match ignores letter case. */
  lemma StripHourlyUpper(name: string)
    requires name == [] || !IsWhitespace(name[|name| - 1])
    ensures StripHourly(name + " (HOURLY)") == name
  {
    var s := name + " (HOURLY)";
    assert s[|s| - 8..] == "(HOURLY)";
    assert LowerStr("(HOURLY)") == "(hourly)";
    assert s[..|s| - 8] == name + " ";
    assert TrimEnd(name + " ") == TrimEnd(name) by {
      assert (name + " ")[..|name + " "| - 1] == name;
    }
  }

  /** `summary.reduce((sum, s) => sum + (s.total || 0), 0)`. */
  function SumTotals(summary: seq<SummaryItem>): real
  {
    if summary == [] then 0.0 else SumTotals(summary[..|summary| - 1]) + summary[|summary| - 1].total
  }

  /** `details.reduce((sum, d) => sum + d.amount, 0)`. */
  function SumAmounts(details: seq<PaymentDetail>): real
  {
    if details == [] then 0.0 else SumAmounts(details[..|details| - 1]) + details[|details| - 1].amount
  }

  lemma {:induction false} SumTotalsAppend(a: seq<SummaryItem>, b: seq<SummaryItem>)
    ensures SumTotals(a + b) == SumTotals(a) + SumTotals(b)
    decreases |b|
  {
    if b == [] {
      assert a + b == a;
    } else {
      assert (a + b)[..|a + b| - 1] == a + b[..|b| - 1];
      SumTotalsAppend(a, b[..|b| - 1]);
    }
  }

  lemma {:induction false} SumAmountsAppend(a: seq<PaymentDetail>, b: seq<PaymentDetail>)
    ensures SumAmounts(a + b) == SumAmounts(a) + SumAmounts(b)
    decreases |b|
  {
    if b == [] {
      assert a + b == a;
    } else {
      assert (a + b)[..|a + b| - 1] == a + b[..|b| - 1];
      SumAmountsAppend(a, b[..|b| - 1]);
    }
  }

  /** The active-building filter every seeding path applies. */
  function ActiveBuildings(bs: seq<BuildingAssignment>): (r: seq<BuildingAssignment>)
    ensures |r| <= |bs|
    ensures forall b :: b in r <==> b in bs && b.isActive
  {
    if bs == [] then []
    else if bs[0].isActive then [bs[0]] + ActiveBuildings(bs[1..])
    else ActiveBuildings(bs[1..])
  }

  lemma {:induction false} ActiveBuildingsAppend(a: seq<BuildingAssignment>, b: seq<BuildingAssignment>)
    ensures ActiveBuildings(a + b) == ActiveBuildings(a) + ActiveBuildings(b)
    decreases |a|
  {
    if a == [] {
      assert a + b == b;
    } else {
      assert (a + b)[1..] == a[1..] + b;
      assert (a + b)[0] == a[0];
      ActiveBuildingsAppend(a[1..], b);
    }
  }
}
