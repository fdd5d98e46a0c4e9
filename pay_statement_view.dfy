/** What the rendered statement shows, apart from layout and currency
    formatting: the summary order under each preset, the details-table
    descriptions, the total rows, the pay-period line and the quantity and
    rate suffixes. */
module PayStatementView {
  import opened Text
  import opened Wrappers
  import opened Statement
  import PayPeriods
  import PayStatementForm

  /** The `preset` the component reads, "current" when not given. */
  function PresetOrDefault(preset: Option<string>): string
  {
    if preset.Some? then preset.value else "current"
  }

  predicate IsBP(preset: Option<string>)
  {
    PresetOrDefault(preset) == "bpv1"
  }

  // ---------------------------------------------------------------------
  // Case-insensitive order on descriptions

  /** Lexicographic order on character codes. */
  predicate LexLe(a: string, b: string)
  {
    if a == [] then true
    else if b == [] then false
    else if a[0] != b[0] then a[0] < b[0]
    else LexLe(a[1..], b[1..])
  }

  lemma {:induction false} LexTotal(a: string, b: string)
    ensures LexLe(a, b) || LexLe(b, a)
  {
    if a != [] && b != [] && a[0] == b[0] {
      LexTotal(a[1..], b[1..]);
    }
  }

  lemma {:induction false} LexTrans(a: string, b: string, c: string)
    requires LexLe(a, b) && LexLe(b, c)
    ensures LexLe(a, c)
  {
    if a != [] && b != [] && c != [] && a[0] == b[0] && b[0] == c[0] {
      LexTrans(a[1..], b[1..], c[1..]);
    }
  }

  /** Descriptions compared without regard to ASCII letter case. */
  predicate KeyLe(x: SummaryItem, y: SummaryItem)
  {
    LexLe(LowerStr(x.description), LowerStr(y.description))
  }

  predicate SortedByKey(s: seq<SummaryItem>)
  {
    forall i, j :: 0 <= i < j < |s| ==> KeyLe(s[i], s[j])
  }

  /** Places x before the first element it does not come after. */
  function Insert(x: SummaryItem, s: seq<SummaryItem>): (r: seq<SummaryItem>)
    ensures multiset(r) == multiset(s) + multiset{x}
    ensures |r| == |s| + 1
  {
    if s == [] then [x]
    else if KeyLe(x, s[0]) then [x] + s
    else
      var r := [s[0]] + Insert(x, s[1..]);
      assert s == [s[0]] + s[1..];
      r
  }

  lemma {:induction false} InsertSorted(x: SummaryItem, s: seq<SummaryItem>)
    requires SortedByKey(s)
    ensures SortedByKey(Insert(x, s))
  {
    if s == [] {
    } else if KeyLe(x, s[0]) {
      SortedFront(x, s);
    } else {
      TailSorted(s);
      InsertSorted(x, s[1..]);
      LexTotal(LowerStr(x.description), LowerStr(s[0].description));
      SortedBehind(x, s, Insert(x, s[1..]));
    }
  }

  lemma TailSorted(s: seq<SummaryItem>)
    requires s != [] && SortedByKey(s)
    ensures SortedByKey(s[1..])
  {
    assert forall i :: 0 <= i < |s[1..]| ==> s[1..][i] == s[i + 1];
  }

  /** x goes in front of a sorted list whose head it does not come after. */
  lemma SortedFront(x: SummaryItem, s: seq<SummaryItem>)
    requires s != [] && SortedByKey(s) && KeyLe(x, s[0])
    ensures SortedByKey([x] + s)
  {
    forall j | 0 <= j < |s| ensures KeyLe(x, s[j]) {
      if j > 0 {
        LexTrans(LowerStr(x.description), LowerStr(s[0].description), LowerStr(s[j].description));
      }
    }
    assert forall j :: 0 < j < |[x] + s| ==> ([x] + s)[j] == s[j - 1];
  }

  /** The head of a sorted list stays in front of x inserted into its tail. */
  lemma SortedBehind(x: SummaryItem, s: seq<SummaryItem>, rest: seq<SummaryItem>)
    requires s != [] && SortedByKey(s) && KeyLe(s[0], x)
    requires SortedByKey(rest) && multiset(rest) == multiset(s[1..]) + multiset{x}
    ensures SortedByKey([s[0]] + rest)
  {
    forall y | y in rest ensures KeyLe(s[0], y) {
      assert y in multiset(rest);
      if y != x {
        assert y in multiset(s[1..]);
        var j :| 0 <= j < |s[1..]| && s[1..][j] == y;
        assert s[j + 1] == y;
      }
    }
    var r := [s[0]] + rest;
    forall i, j | 0 <= i < j < |r| ensures KeyLe(r[i], r[j]) {
      if i == 0 {
        assert r[j] == rest[j - 1];
        assert rest[j - 1] in rest;
      } else {
        assert r[i] == rest[i - 1] && r[j] == rest[j - 1];
      }
    }
  }

  /** `[...summary].sort(compare)`: a stable insertion sort. */
  function SortByDescription(s: seq<SummaryItem>): (r: seq<SummaryItem>)
    ensures multiset(r) == multiset(s)
    ensures |r| == |s|
  {
    if s == [] then []
    else
      assert s == [s[0]] + s[1..];
      Insert(s[0], SortByDescription(s[1..]))
  }

  lemma {:induction false} SortSorted(s: seq<SummaryItem>)
    ensures SortedByKey(SortByDescription(s))
  {
    if s != [] {
      SortSorted(s[1..]);
      InsertSorted(s[0], SortByDescription(s[1..]));
    }
  }

  /** sortedSummary. */
  function SortedSummary(preset: Option<string>, summary: seq<SummaryItem>): seq<SummaryItem>
  {
    if IsBP(preset) then SortByDescription(summary) else summary
  }

  /** Under "bpv1" the rows are a case-insensitively ordered rearrangement
      of the summary; under any other preset, or none, they are the summary
      as stored. */
  lemma SortedSummarySpec(preset: Option<string>, summary: seq<SummaryItem>)
    ensures IsBP(preset) ==> SortedByKey(SortedSummary(preset, summary))
    ensures multiset(SortedSummary(preset, summary)) == multiset(summary)
    ensures !IsBP(preset) ==> SortedSummary(preset, summary) == summary
  {
    SortSorted(summary);
  }

  /** Descriptions differing only in letter case are equal keys either way. */
  lemma KeyIgnoresCase()
    ensures KeyLe(SummaryItem("Alpha", 0.0, 0.0, None, 0.0), SummaryItem("alpha", 0.0, 0.0, None, 0.0))
    ensures KeyLe(SummaryItem("alpha", 0.0, 0.0, None, 0.0), SummaryItem("Alpha", 0.0, 0.0, None, 0.0))
  {
    assert LowerStr("Alpha") == "alpha";
    assert LowerStr("alpha") == "alpha";
    LexRefl("alpha");
  }

  lemma {:induction false} LexRefl(a: string)
    ensures LexLe(a, a)
  {
    if a != [] {
      LexRefl(a[1..]);
    }
  }

  // ---------------------------------------------------------------------
  // Cells

  /** A row of the "Payment Details" table (drawn from the summary when the
      preset is not "bpv1"): description without its "(hourly)" tag, total. */
  function DetailsRow(item: SummaryItem): (string, real)
  {
    (StripHourly(item.description), item.total)
  }

  /** A tagged description shows the bare name; any other is shown as is. */
  lemma DetailsRowSpec(name: string, item: SummaryItem)
    requires name == [] || !IsWhitespace(name[|name| - 1])
    ensures DetailsRow(item.(description := name + HourlyTag)).0 == name
    ensures |item.description| < 8 || LowerStr(item.description[|item.description| - 8..]) != "(hourly)" ==>
            DetailsRow(item).0 == item.description
  {
    StripHourlyTag(name);
  }

  /** Every total row: the sum of the summary totals. */
  function TotalRow(data: PayStatementData): real
  {
    SumTotals(data.summary)
  }

  /** For a statement whose summary and total were derived from its
      details, the total row equals the stored total. */
  lemma TotalRowConsistent(data: PayStatementData)
    requires PayStatementForm.Consistent(data)
    ensures TotalRow(data) == data.totalPayment
  {
  }

  /** The stored total is not what the rows show: an empty summary shows 0
      whatever totalPayment says. */
  lemma TotalRowIgnoresStored(data: PayStatementData)
    requires data.summary == []
    ensures TotalRow(data) == 0.0
  {
  }

  /** The pay-period line: the period's label, or "N/A" for an unknown id. */
  function PeriodLine(id: string): string
  {
    var p := PayPeriods.GetPayPeriodById(id);
    if p.Some? && p.value.Label() != "" then p.value.Label() else "N/A"
  }

  lemma PeriodLineSpec(k: nat)
    requires k < |PayPeriods.GeneratedPeriods()|
    ensures PeriodLine(PayPeriods.PeriodId(k)) == PayPeriods.GeneratedPeriods()[k].Label()
  {
    PayPeriods.FindByIdGenerated(PayPeriods.AnchorDay(), PayPeriods.HorizonDay(), k);
    PayPeriods.PeriodsShape(PayPeriods.AnchorDay(), PayPeriods.HorizonDay(), k);
    var p := PayPeriods.GeneratedPeriods()[k];
    assert |p.Label()| >= 3;
  }

  lemma PeriodLineUnknown()
    ensures PeriodLine("pp-999") == "N/A"
  {
    PayPeriods.UnknownIdNotFound();
  }

  /** The text after the quantity. */
  function QtySuffixText(item: SummaryItem): string
  {
    if item.qtySuffix.Some? && item.qtySuffix.value != "" then " " + item.qtySuffix.value else " units"
  }

  /** The text after the rate: only in the "bpv1" layout. */
  function RateSuffixText(preset: Option<string>, item: SummaryItem): string
  {
    if IsBP(preset) then (if item.qtySuffix == Some("hrs") then " / hr" else " / unit") else ""
  }

  /** An hourly line reads " hrs" and, under "bpv1", " / hr"; a line with
      no suffix reads " units" and " / unit". */
  lemma SuffixTexts(preset: Option<string>, item: SummaryItem)
    ensures item.qtySuffix == Some("hrs") ==> QtySuffixText(item) == " hrs"
    ensures item.qtySuffix == Some("hrs") && IsBP(preset) ==> RateSuffixText(preset, item) == " / hr"
    ensures item.qtySuffix.None? ==> QtySuffixText(item) == " units"
    ensures item.qtySuffix != Some("hrs") && IsBP(preset) ==> RateSuffixText(preset, item) == " / unit"
    ensures !IsBP(preset) ==> RateSuffixText(preset, item) == ""
  {
  }

  /** A line the form derives as hourly shows its hours with " hrs" and
      its bare name in the details table. */
  lemma DerivedHourlyShown(d: PaymentDetail, meta: PayStatementForm.Meta)
    requires meta.payType == Hourly && meta.qty.Finite? && meta.qty.d.NonNegative()
    requires d.description == [] || !IsWhitespace(d.description[|d.description| - 1])
    ensures QtySuffixText(PayStatementForm.ItemOf(d, meta)) == " hrs"
    ensures DetailsRow(PayStatementForm.ItemOf(d, meta)).0 == d.description
  {
    PayStatementForm.ItemOfSpec(d, meta);
    StripHourlyTag(d.description);
  }
}
