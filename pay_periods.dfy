/** The biweekly pay-period calendar: generation from an anchor day up to a
    horizon day, the "available" filter with its nine-day grace, the lookup of
    the period containing now, lookup by id, and the default choice. */
module PayPeriods {
  import opened Text
  import opened Calendar
  import opened Wrappers

  /** A pay period. The source stores the two ISO strings and the label; the
      model keeps the two days they are formatted from and derives the strings,
      so `new Date("<endDate>T00:00:00")` reads back `StartOfDay(endDay)`. */
  datatype PayPeriod = PayPeriod(id: string, startDay: Day, endDay: Day)
  {
    function StartDate(): string { FormatISO(startDay) }
    function EndDate(): string { FormatISO(endDay) }
    /** `MM/DD/YYYY – MM/DD/YYYY` with an en dash. */
    function Label(): string { FormatSlashed(startDay) + " \U{2013} " + FormatSlashed(endDay) }
  }

  /** Days of grace after a period's end during which it stays selectable. */
  const CutoffDays: int := 9

  /** `pp-` followed by k + 1 padded to three digits. */
  function PeriodId(k: nat): string
  {
    "pp-" + PadStart(NatToString(k + 1), 3, '0')
  }

  /** The k-th (0-based) candidate period from the anchor. */
  function PeriodAt(anchor: Day, k: nat): PayPeriod
  {
    PayPeriod(PeriodId(k), anchor + 14 * k, anchor + 14 * k + 13)
  }

  /** How many candidates end on or before the horizon day. */
  function PeriodCount(anchor: Day, horizon: Day): nat
  {
    if horizon - anchor - 13 < 0 then 0 else (horizon - anchor - 13) / 14 + 1
  }

  /** The table generateBiWeeklyPeriods produces, as a value. */
  function Periods(anchor: Day, horizon: Day): seq<PayPeriod>
  {
    seq(PeriodCount(anchor, horizon), k requires 0 <= k => PeriodAt(anchor, k))
  }

  /** generateBiWeeklyPeriods: the `while (true)` loop over k that pushes
      candidate k until its end falls after the horizon's 23:59:59. */
  method GenerateBiWeeklyPeriods(anchor: Day, horizon: Day) returns (periods: seq<PayPeriod>)
    ensures periods == Periods(anchor, horizon)
  {
    periods := [];
    var k: nat := 0;
    while true
      invariant k <= PeriodCount(anchor, horizon)
      invariant periods == Periods(anchor, horizon)[..k]
      decreases horizon - (anchor + 14 * k)
    {
      var periodStart := anchor + 14 * k;
      var periodEnd := periodStart + 13;
      if StartOfDay(periodEnd) > EndOfDay(horizon) {
        break;
      }
      periods := periods + [PayPeriod(PeriodId(k), periodStart, periodEnd)];
      k := k + 1;
    }
  }

  /** Period k starts 14k days after the anchor and ends 13 days after it
      starts; every period ends on or before the horizon and the next
      candidate would not. */
  lemma PeriodsShape(anchor: Day, horizon: Day, k: nat)
    requires k < |Periods(anchor, horizon)|
    ensures Periods(anchor, horizon)[k].startDay == anchor + 14 * k
    ensures Periods(anchor, horizon)[k].endDay == Periods(anchor, horizon)[k].startDay + 13
    ensures Periods(anchor, horizon)[k].endDay <= horizon
    ensures Periods(anchor, horizon)[k].id == PeriodId(k)
  {
  }

  lemma PeriodsStop(anchor: Day, horizon: Day)
    ensures PeriodAt(anchor, |Periods(anchor, horizon)|).endDay > horizon
  {
  }

  /** Consecutive periods tile the calendar: no gap, no overlap. */
  lemma PeriodsTile(anchor: Day, horizon: Day, k: nat)
    requires k + 1 < |Periods(anchor, horizon)|
    ensures Periods(anchor, horizon)[k + 1].startDay == Periods(anchor, horizon)[k].endDay + 1
  {
  }

  /** Padding with zeros keeps numerals without leading zeros apart. */
  lemma PadInjective(s: string, t: string)
    requires |s| > 0 && |t| > 0 && s[0] != '0' && t[0] != '0'
    requires PadStart(s, 3, '0') == PadStart(t, 3, '0')
    ensures s == t
  {
    var r := PadStart(s, 3, '0');
    assert r[|r| - |s|] == s[0];
    assert r[|r| - |t|] == t[0];
    assert |s| == |t|;
  }

  /** Distinct indices give distinct ids. */
  lemma PeriodIdInjective(j: nat, k: nat)
    requires PeriodId(j) == PeriodId(k)
    ensures j == k
  {
    NatToStringSpec(j + 1);
    NatToStringSpec(k + 1);
    var a := PadStart(NatToString(j + 1), 3, '0');
    var b := PadStart(NatToString(k + 1), 3, '0');
    assert PeriodId(j)[3..] == a && PeriodId(k)[3..] == b;
    PadInjective(NatToString(j + 1), NatToString(k + 1));
    NatToStringInjective(j + 1, k + 1);
  }

  // ---------------------------------------------------------------------
  // Queries against "now"

  /** The filter of getAvailablePayPeriods: now <= endDate 00:00 + 9 days. */
  predicate Visible(p: PayPeriod, now: Instant)
  {
    now <= StartOfDay(p.endDay + CutoffDays)
  }

  /** The predicate of getCurrentPayPeriod: start 00:00:00 <= now <= end 23:59:59. */
  predicate Contains(p: PayPeriod, now: Instant)
  {
    StartOfDay(p.startDay) <= now <= EndOfDay(p.endDay)
  }

  function AvailablePeriods(ps: seq<PayPeriod>, now: Instant): (r: seq<PayPeriod>)
    ensures |r| <= |ps|
    ensures forall p :: p in r <==> p in ps && Visible(p, now)
  {
    if ps == [] then []
    else if Visible(ps[0], now) then [ps[0]] + AvailablePeriods(ps[1..], now)
    else AvailablePeriods(ps[1..], now)
  }

  /** `Array.prototype.find` with the Contains predicate. */
  function FindContaining(ps: seq<PayPeriod>, now: Instant): (r: Option<PayPeriod>)
    ensures r.Some? ==> r.value in ps && Contains(r.value, now)
    ensures r.Some? ==> exists i :: 0 <= i < |ps| && ps[i] == r.value && forall j :: 0 <= j < i ==> !Contains(ps[j], now)
    ensures r.None? <==> forall p :: p in ps ==> !Contains(p, now)
  {
    if ps == [] then None
    else if Contains(ps[0], now) then Some(ps[0])
    else FindContaining(ps[1..], now)
  }

  /** `find` of the first period starting strictly after now. */
  function FindUpcoming(ps: seq<PayPeriod>, now: Instant): (r: Option<PayPeriod>)
    ensures r.Some? ==> r.value in ps && StartOfDay(r.value.startDay) > now
    ensures r.Some? ==> exists i :: 0 <= i < |ps| && ps[i] == r.value && forall j :: 0 <= j < i ==> StartOfDay(ps[j].startDay) <= now
    ensures r.None? <==> forall p :: p in ps ==> StartOfDay(p.startDay) <= now
  {
    if ps == [] then None
    else if StartOfDay(ps[0].startDay) > now then Some(ps[0])
    else FindUpcoming(ps[1..], now)
  }

  /** getPayPeriodById: the first period with that id, or null. */
  function FindById(ps: seq<PayPeriod>, id: string): (r: Option<PayPeriod>)
    ensures r.Some? ==> r.value in ps && r.value.id == id
    ensures r.Some? ==> exists i :: 0 <= i < |ps| && ps[i] == r.value && forall j :: 0 <= j < i ==> ps[j].id != id
    ensures r.None? <==> forall p :: p in ps ==> p.id != id
  {
    if ps == [] then None
    else if ps[0].id == id then Some(ps[0])
    else FindById(ps[1..], id)
  }

  /** getDefaultPayPeriod: the visible period containing now, else the first
      visible one starting after now, else the last visible one, else null. */
  function DefaultPeriod(ps: seq<PayPeriod>, now: Instant): (r: Option<PayPeriod>)
    ensures r.Some? ==> r.value in AvailablePeriods(ps, now)
    ensures r.None? <==> AvailablePeriods(ps, now) == []
  {
    var visible := AvailablePeriods(ps, now);
    var active := FindContaining(visible, now);
    if active.Some? then active
    else
      var upcoming := FindUpcoming(visible, now);
      if upcoming.Some? then upcoming
      else if |visible| > 0 then Some(visible[|visible| - 1])
      else None
  }

  /** A period that contains now is still visible. */
  lemma ContainingIsVisible(p: PayPeriod, now: Instant)
    requires Contains(p, now)
    ensures Visible(p, now)
  {
  }

  /** Filtering out invisible periods cannot change which period is found
      to contain now. */
  lemma {:induction false} FindContainingAvailable(ps: seq<PayPeriod>, now: Instant)
    ensures FindContaining(AvailablePeriods(ps, now), now) == FindContaining(ps, now)
  {
    if ps != [] {
      FindContainingAvailable(ps[1..], now);
      if Visible(ps[0], now) {
        var rest := AvailablePeriods(ps[1..], now);
        assert AvailablePeriods(ps, now) == [ps[0]] + rest;
        assert ([ps[0]] + rest)[1..] == rest;
      }
    }
  }

  /** The default is the current period whenever one exists. */
  lemma DefaultIsCurrent(ps: seq<PayPeriod>, now: Instant)
    requires FindContaining(ps, now).Some?
    ensures DefaultPeriod(ps, now) == FindContaining(ps, now)
  {
    FindContainingAvailable(ps, now);
  }

  /** Step 2: when no visible period contains now, the default is the
      first visible period, in table order, that starts after now. */
  lemma DefaultIsUpcoming(ps: seq<PayPeriod>, now: Instant, i: nat)
    requires forall p :: p in AvailablePeriods(ps, now) ==> !Contains(p, now)
    requires i < |AvailablePeriods(ps, now)| && StartOfDay(AvailablePeriods(ps, now)[i].startDay) > now
    requires forall j :: 0 <= j < i ==> StartOfDay(AvailablePeriods(ps, now)[j].startDay) <= now
    ensures DefaultPeriod(ps, now) == Some(AvailablePeriods(ps, now)[i])
  {
    var v := AvailablePeriods(ps, now);
    var u := FindUpcoming(v, now);
    assert v[i] in v;
    var k :| 0 <= k < |v| && v[k] == u.value && forall j :: 0 <= j < k ==> StartOfDay(v[j].startDay) <= now;
    assert StartOfDay(v[k].startDay) > now;
    assert k == i;
  }

  /** Step 3: when no visible period contains now or starts after it, the
      default is the last visible period, which has already ended and is
      still inside its grace days. */
  lemma DefaultIsLatest(ps: seq<PayPeriod>, now: Instant)
    requires AvailablePeriods(ps, now) != []
    requires forall p :: p in AvailablePeriods(ps, now) ==> !Contains(p, now) && StartOfDay(p.startDay) <= now
    ensures DefaultPeriod(ps, now) == Some(AvailablePeriods(ps, now)[|AvailablePeriods(ps, now)| - 1])
    ensures var p := DefaultPeriod(ps, now).value;
            EndOfDay(p.endDay) < now <= StartOfDay(p.endDay + CutoffDays)
  {
    var v := AvailablePeriods(ps, now);
    assert v[|v| - 1] in v;
  }

  // ---------------------------------------------------------------------
  // Properties of generated tables

  /** In a generated table a later period ends, and starts, later. */
  lemma PeriodsOrdered(anchor: Day, horizon: Day, i: nat, j: nat)
    requires i < j < |Periods(anchor, horizon)|
    ensures Periods(anchor, horizon)[i].endDay < Periods(anchor, horizon)[j].startDay
  {
  }

  /** At most one generated period contains any instant, so the current
      period is well defined. */
  lemma AtMostOneContains(anchor: Day, horizon: Day, i: nat, j: nat, now: Instant)
    requires i < |Periods(anchor, horizon)| && j < |Periods(anchor, horizon)|
    requires Contains(Periods(anchor, horizon)[i], now) && Contains(Periods(anchor, horizon)[j], now)
    ensures i == j
  {
    if i < j { PeriodsOrdered(anchor, horizon, i, j); }
    if j < i { PeriodsOrdered(anchor, horizon, j, i); }
  }

  /** The period found to contain now is the only one that does. */
  lemma CurrentUnique(anchor: Day, horizon: Day, now: Instant)
    ensures var r := FindContaining(Periods(anchor, horizon), now);
            r.Some? ==> forall i :: 0 <= i < |Periods(anchor, horizon)| && Contains(Periods(anchor, horizon)[i], now) ==>
                          Periods(anchor, horizon)[i] == r.value
  {
    var ps := Periods(anchor, horizon);
    var r := FindContaining(ps, now);
    if r.Some? {
      var k :| 0 <= k < |ps| && ps[k] == r.value;
      forall i | 0 <= i < |ps| && Contains(ps[i], now) ensures ps[i] == r.value {
        AtMostOneContains(anchor, horizon, i, k, now);
      }
    }
  }

  /** Generated ids are distinct, and lookup by id finds exactly period k. */
  lemma FindByIdGenerated(anchor: Day, horizon: Day, k: nat)
    requires k < |Periods(anchor, horizon)|
    ensures FindById(Periods(anchor, horizon), PeriodId(k)) == Some(Periods(anchor, horizon)[k])
  {
    var ps := Periods(anchor, horizon);
    forall j | 0 <= j < |ps| && j != k ensures ps[j].id != ps[k].id {
      PeriodIdDistinct(j, k);
    }
    FindByIdUnique(ps, k);
  }

  /** In a list whose k-th id occurs nowhere else, lookup by that id finds
      entry k. */
  lemma FindByIdUnique(ps: seq<PayPeriod>, k: nat)
    requires k < |ps| && forall j :: 0 <= j < |ps| && j != k ==> ps[j].id != ps[k].id
    ensures FindById(ps, ps[k].id) == Some(ps[k])
  {
    var r := FindById(ps, ps[k].id);
    assert ps[k] in ps;
    var j :| 0 <= j < |ps| && ps[j] == r.value;
    assert j == k;
  }

  /** Lookup of an id no entry has finds nothing. */
  lemma FindByIdAbsent(ps: seq<PayPeriod>, id: string)
    requires forall j :: 0 <= j < |ps| ==> ps[j].id != id
    ensures FindById(ps, id).None?
  {
    forall p | p in ps ensures p.id != id {
      var j :| 0 <= j < |ps| && ps[j] == p;
    }
  }

  /** Only ids of the form PeriodId(k), k inside the table, are found. */
  lemma FindByIdOnlyGenerated(anchor: Day, horizon: Day, id: string)
    requires FindById(Periods(anchor, horizon), id).Some?
    ensures exists k :: 0 <= k < |Periods(anchor, horizon)| && id == PeriodId(k)
  {
    var ps := Periods(anchor, horizon);
    var p := FindById(ps, id).value;
    var k :| 0 <= k < |ps| && ps[k] == p;
    assert id == PeriodId(k);
  }

  /** A filter keeping an upward-closed set of positions returns a suffix. */
  lemma {:induction false} AvailableIsSuffix(ps: seq<PayPeriod>, now: Instant)
    requires forall i, j :: 0 <= i < j < |ps| ==> ps[i].endDay < ps[j].endDay
    ensures exists s :: 0 <= s <= |ps| && AvailablePeriods(ps, now) == ps[s..]
  {
    if ps == [] {
      assert AvailablePeriods(ps, now) == ps[0..];
    } else {
      var rest := ps[1..];
      assert forall i, j :: 0 <= i < j < |rest| ==> rest[i].endDay < rest[j].endDay by {
        forall i, j | 0 <= i < j < |rest| ensures rest[i].endDay < rest[j].endDay {
          assert rest[i] == ps[i + 1] && rest[j] == ps[j + 1];
        }
      }
      if Visible(ps[0], now) {
        AllVisible(ps, now);
        assert AvailablePeriods(ps, now) == ps[0..];
      } else {
        AvailableIsSuffix(rest, now);
        var s :| 0 <= s <= |rest| && AvailablePeriods(rest, now) == rest[s..];
        assert rest[s..] == ps[s + 1..];
      }
    }
  }

  lemma {:induction false} AllVisible(ps: seq<PayPeriod>, now: Instant)
    requires forall i, j :: 0 <= i < j < |ps| ==> ps[i].endDay < ps[j].endDay
    requires ps != [] && Visible(ps[0], now)
    ensures AvailablePeriods(ps, now) == ps
  {
    var rest := ps[1..];
    if rest != [] {
      assert rest[0] == ps[1];
      assert forall i, j :: 0 <= i < j < |rest| ==> rest[i].endDay < rest[j].endDay by {
        forall i, j | 0 <= i < j < |rest| ensures rest[i].endDay < rest[j].endDay {
          assert rest[i] == ps[i + 1] && rest[j] == ps[j + 1];
        }
      }
      AllVisible(rest, now);
    }
    assert [ps[0]] + rest == ps;
  }

  /** The available list of a generated table is one of its suffixes. */
  lemma GeneratedAvailableIsSuffix(anchor: Day, horizon: Day, now: Instant)
    ensures exists s :: 0 <= s <= |Periods(anchor, horizon)|
              && AvailablePeriods(Periods(anchor, horizon), now) == Periods(anchor, horizon)[s..]
  {
    var ps := Periods(anchor, horizon);
    forall i, j | 0 <= i < j < |ps| ensures ps[i].endDay < ps[j].endDay {
      PeriodsOrdered(anchor, horizon, i, j);
    }
    AvailableIsSuffix(ps, now);
  }

  // ---------------------------------------------------------------------
  // The application's table: 2025-08-18 up to 2026-08-30

  function AnchorDay(): Day { DaysFromCivil(Civil(2025, 8, 18)) }
  function HorizonDay(): Day { DaysFromCivil(Civil(2026, 8, 30)) }

  /** GENERATED_PERIODS. */
  function GeneratedPeriods(): seq<PayPeriod> { Periods(AnchorDay(), HorizonDay()) }

  /** The application's table has 27 periods; the last, pp-027, runs from
      2026-08-17 to 2026-08-30. */
  lemma GeneratedTable()
    ensures |GeneratedPeriods()| == 27
    ensures GeneratedPeriods()[26].startDay == DaysFromCivil(Civil(2026, 8, 17))
    ensures GeneratedPeriods()[26].endDay == DaysFromCivil(Civil(2026, 8, 30))
    ensures GeneratedPeriods()[26].id == "pp-027"
  {
    GeneratedCount();
    AnchorValue();
    HorizonValue();
    var ps := Periods(20318, 20695);
    assert GeneratedPeriods() == ps;
    PeriodsShape(20318, 20695, 26);
    assert ps[26].startDay == 20682 && ps[26].endDay == 20695;
    LastStartValue();
    Id027();
  }

  /** pp-001 runs from 2025-08-18 to 2025-08-31 and is labelled
      "08/18/2025 – 08/31/2025". */
  lemma FirstPeriodText()
    ensures GeneratedPeriods()[0].id == "pp-001"
    ensures GeneratedPeriods()[0].StartDate() == "2025-08-18"
    ensures GeneratedPeriods()[0].EndDate() == "2025-08-31"
    ensures GeneratedPeriods()[0].Label() == "08/18/2025 \U{2013} 08/31/2025"
  {
    FirstPeriodDates();
    FirstLabelParts();
    LabelLiteral();
  }

  lemma FirstPeriodDates()
    ensures GeneratedPeriods()[0].id == "pp-001"
    ensures GeneratedPeriods()[0].StartDate() == "2025-08-18"
    ensures GeneratedPeriods()[0].EndDate() == "2025-08-31"
  {
    AnchorTexts();
    FirstEndTexts();
    FirstPeriod();
  }

  lemma LabelLiteral()
    ensures "08/18/2025" + " \U{2013} " + "08/31/2025" == "08/18/2025 \U{2013} 08/31/2025"
  {
  }

  lemma FirstLabelParts()
    ensures GeneratedPeriods()[0].Label() == "08/18/2025" + " \U{2013} " + "08/31/2025"
  {
    AnchorTexts();
    FirstEndTexts();
    FirstPeriod();
  }

  lemma AnchorTexts()
    ensures FormatISO(20318) == "2025-08-18" && FormatSlashed(20318) == "08/18/2025"
  {
    assert IntToString(2025) + "-" + Pad2(8) + "-" + Pad2(18) == "2025-08-18"
        && Pad2(8) + "/" + Pad2(18) + "/" + IntToString(2025) == "08/18/2025" by {
      Texts2025();
    }
    assert FormatISO(20318) == "2025-08-18" && FormatSlashed(20318) == "08/18/2025" by {
      AnchorDateValue();
      DateTexts(20318, Civil(2025, 8, 18));
    }
  }

  lemma FirstEndTexts()
    ensures FormatISO(20331) == "2025-08-31" && FormatSlashed(20331) == "08/31/2025"
  {
    assert IntToString(2025) + "-" + Pad2(8) + "-" + Pad2(31) == "2025-08-31"
        && Pad2(8) + "/" + Pad2(31) + "/" + IntToString(2025) == "08/31/2025" by {
      Texts2025();
    }
    assert FormatISO(20331) == "2025-08-31" && FormatSlashed(20331) == "08/31/2025" by {
      FirstEndValue();
      DateTexts(20331, Civil(2025, 8, 31));
    }
  }

  lemma FirstPeriod()
    ensures |GeneratedPeriods()| > 0 && GeneratedPeriods()[0] == PayPeriod("pp-001", 20318, 20331)
  {
    GeneratedCount();
    AnchorValue();
    PeriodsShape(AnchorDay(), HorizonDay(), 0);
    assert NatToString(1) == "1";
  }

  /** The ISO and slashed texts of the day of a valid date. */
  lemma DateTexts(d: Day, c: Civil)
    requires ValidCivil(c) && DaysFromCivil(c) == d
    ensures FormatISO(d) == IntToString(c.year) + "-" + Pad2(c.month) + "-" + Pad2(c.day)
    ensures FormatSlashed(d) == Pad2(c.month) + "/" + Pad2(c.day) + "/" + IntToString(c.year)
  {
    CivilRoundTrip(c);
  }

  lemma Texts2025()
    ensures IntToString(2025) == "2025"
    ensures Pad2(8) == "08" && Pad2(18) == "18" && Pad2(31) == "31"
  {
    assert NatToString(2) == "2";
    assert NatToString(20) == "20";
    assert NatToString(202) == "202";
    assert NatToString(2025) == "2025";
    assert NatToString(8) == "8";
    assert NatToString(18) == "18";
    assert NatToString(31) == "31";
  }

  lemma LastStartValue()
    ensures DaysFromCivil(Civil(2026, 8, 17)) == 20682
  {
  }

  lemma Id027()
    ensures PeriodId(26) == "pp-027"
  {
    assert NatToString(27) == "27";
  }

  lemma AnchorDateValue()
    ensures DaysFromCivil(Civil(2025, 8, 18)) == 20318
  {
  }

  lemma FirstEndValue()
    ensures DaysFromCivil(Civil(2025, 8, 31)) == 20331
  {
  }

  lemma AnchorValue()
    ensures AnchorDay() == 20318
  {
  }

  lemma HorizonValue()
    ensures HorizonDay() == 20695
  {
  }

  /** An anchor of 2025-08-18 with a horizon of 2025-09-15 gives exactly two
      periods, ending on 2025-08-31 and 2025-09-14. */
  lemma ShortTable()
    ensures |Periods(DaysFromCivil(Civil(2025, 8, 18)), DaysFromCivil(Civil(2025, 9, 15)))| == 2
    ensures Periods(DaysFromCivil(Civil(2025, 8, 18)), DaysFromCivil(Civil(2025, 9, 15)))[1].endDay
            == DaysFromCivil(Civil(2025, 9, 14))
  {
  }

  /** getAvailablePayPeriods, getCurrentPayPeriod, getPayPeriodById and
      getDefaultPayPeriod over GENERATED_PERIODS, with `new Date()` as a
      parameter. */
  function GetAvailablePayPeriods(now: Instant): (r: seq<PayPeriod>)
    ensures exists s :: 0 <= s <= |GeneratedPeriods()| && r == GeneratedPeriods()[s..]
    ensures forall p :: p in r <==> p in GeneratedPeriods() && Visible(p, now)
  {
    GeneratedAvailableIsSuffix(AnchorDay(), HorizonDay(), now);
    AvailablePeriods(GeneratedPeriods(), now)
  }

  function GetCurrentPayPeriod(now: Instant): (r: Option<PayPeriod>)
    ensures r.Some? ==> r.value in GeneratedPeriods() && Contains(r.value, now)
    ensures r.Some? ==> forall i :: 0 <= i < |GeneratedPeriods()| && Contains(GeneratedPeriods()[i], now) ==>
                          GeneratedPeriods()[i] == r.value
    ensures r.None? <==> forall p :: p in GeneratedPeriods() ==> !Contains(p, now)
  {
    var r := FindContaining(GeneratedPeriods(), now);
    CurrentUnique(AnchorDay(), HorizonDay(), now);
    r
  }

  function GetPayPeriodById(id: string): (r: Option<PayPeriod>)
    ensures forall k :: 0 <= k < |GeneratedPeriods()| && id == PeriodId(k) ==> r == Some(GeneratedPeriods()[k])
    ensures r.Some? ==> r.value.id == id && exists k :: 0 <= k < |GeneratedPeriods()| && id == PeriodId(k)
  {
    var r := FindById(GeneratedPeriods(), id);
    forall k | 0 <= k < |GeneratedPeriods()| && id == PeriodId(k) ensures r == Some(GeneratedPeriods()[k]) {
      FindByIdGenerated(AnchorDay(), HorizonDay(), k);
    }
    if r.Some? then FindByIdOnlyGenerated(AnchorDay(), HorizonDay(), id); r else r
  }

  function GetDefaultPayPeriod(now: Instant): (r: Option<PayPeriod>)
    ensures r.Some? ==> r.value in GetAvailablePayPeriods(now)
    ensures r.None? <==> GetAvailablePayPeriods(now) == []
    ensures GetCurrentPayPeriod(now).Some? ==> r == GetCurrentPayPeriod(now)
  {
    if FindContaining(GeneratedPeriods(), now).Some? then DefaultIsCurrent(GeneratedPeriods(), now); DefaultPeriod(GeneratedPeriods(), now)
    else DefaultPeriod(GeneratedPeriods(), now)
  }

  /** An id that is not pp-001 .. pp-027 (for instance pp-999) is not found. */
  lemma Id999()
    ensures PeriodId(998) == "pp-999"
  {
    assert NatToString(999) == "999";
  }

  lemma GeneratedCount()
    ensures |GeneratedPeriods()| == 27
  {
    AnchorValue();
    HorizonValue();
    assert PeriodCount(20318, 20695) == 27;
  }

  lemma PeriodIdDistinct(j: nat, k: nat)
    requires j != k
    ensures PeriodId(j) != PeriodId(k)
  {
    if PeriodId(j) == PeriodId(k) {
      PeriodIdInjective(j, k);
    }
  }

  /** The id of a candidate beyond the horizon is not found. */
  lemma FindByIdBeyond(anchor: Day, horizon: Day, j: nat)
    requires j >= |Periods(anchor, horizon)|
    ensures FindById(Periods(anchor, horizon), PeriodId(j)).None?
  {
    var ps := Periods(anchor, horizon);
    forall k | 0 <= k < |ps| ensures ps[k].id != PeriodId(j) {
      PeriodIdDistinct(k, j);
    }
    FindByIdAbsent(ps, PeriodId(j));
  }

  /** An id past pp-027, such as pp-999, is not found. */
  lemma UnknownIdNotFound()
    ensures GetPayPeriodById("pp-999").None?
  {
    GeneratedCount();
    Id999();
    FindByIdBeyond(AnchorDay(), HorizonDay(), 998);
  }
}
