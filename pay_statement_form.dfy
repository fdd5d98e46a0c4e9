/** The manual-entry form: the pay type and quantity kept in each payment
    detail's notes as `type=…&qty=…`, the derivation of summary items and the
    total from the details, and the form's state transitions (add, update,
    remove, the mount-time re-derivation and the pay-period sync). React
    state is an explicit PayStatementData value. */
module PayStatementForm {
  import opened Text
  import opened Wrappers
  import opened Statement
  import opened JsNumber
  import FormUrlEncoded
  import PayPeriods
  import Calendar

  /** The pay type and quantity of one manually entered line. */
  datatype Meta = Meta(payType: PayType, qty: JsNum)

  function PayTypeName(t: PayType): string
  {
    match t
    case PerVisit => "perVisit"
    case Hourly => "hourly"
  }

  const DefaultMeta: Meta := Meta(PerVisit, Finite(One))

  /** `Number(m.get("qty") || 1)`. */
  function RawQty(value: Option<string>): JsNum
  {
    if value.None? || value.value == "" then Finite(One) else ParseNumber(value.value)
  }

  /** The meta read from the `type` and `qty` values of the notes. */
  function MetaOf(typeValue: Option<string>, raw: JsNum): (m: Meta)
    ensures m.qty.Finite? && m.qty.d.NonNegative() && (raw.Valid() ==> m.qty.Valid())
  {
    Meta(if typeValue == Some("hourly") then Hourly else PerVisit,
         if raw.IsFinite() && raw.d.NonNegative() then raw else Finite(One))
  }

  /** parseMeta: empty notes give perVisit with qty 1; otherwise the type is
      hourly exactly when the `type` value is "hourly", and the quantity is
      the `qty` number when it is finite and not negative, else 1. */
  function ParseMeta(notes: Option<string>): (m: Meta)
    ensures m.qty.Finite? && m.qty.d.NonNegative() && m.qty.Valid()
  {
    if notes.None? || notes.value == "" then DefaultMeta
    else
      var params := FormUrlEncoded.ParseQuery(notes.value);
      MetaOf(FormUrlEncoded.Get(params, "type"), RawQty(FormUrlEncoded.Get(params, "qty")))
  }

  /** serializeMeta: `type=<type>&qty=<String(qty)>`. */
  function SerializeMeta(m: Meta): string
  {
    FormUrlEncoded.Serialize([("type", PayTypeName(m.payType)), ("qty", ToString(m.qty))])
  }

  /** Missing and empty notes both read as perVisit with quantity 1. */
  lemma ParseMetaEmpty()
    ensures ParseMeta(None) == Meta(PerVisit, Finite(One))
    ensures ParseMeta(Some("")) == Meta(PerVisit, Finite(One))
  {
  }

  /** Serialising and re-reading keeps the pay type, and keeps the
      quantity whenever it is finite and not negative; any other quantity
      reads back as 1. */
  lemma MetaRoundTrip(m: Meta)
    requires m.qty.Valid()
    ensures ParseMeta(Some(SerializeMeta(m)))
            == Meta(m.payType, if m.qty.Finite? && m.qty.d.NonNegative() then m.qty else Finite(One))
  {
    var name := PayTypeName(m.payType);
    var qtyText := ToString(m.qty);
    var text := SerializeMeta(m);
    FormUrlEncoded.ParseSerializeTwo("type", name, "qty", qtyText);
    GetTwo("type", name, "qty", qtyText);
    assert text != [] by {
      FormUrlEncoded.SerializeTwoShape("type", name, "qty", qtyText);
    }
    RawQtyOf(m.qty);
    ParseMetaText(text, Some(name), Some(qtyText), m.qty);
    MetaOfSerialized(m);
  }

  lemma GetTwo(n1: string, v1: string, n2: string, v2: string)
    requires n1 != n2
    ensures FormUrlEncoded.Get([(n1, v1), (n2, v2)], n1) == Some(v1)
    ensures FormUrlEncoded.Get([(n1, v1), (n2, v2)], n2) == Some(v2)
  {
    assert [(n1, v1), (n2, v2)][1..] == [(n2, v2)];
  }

  lemma ParseMetaText(text: string, typeValue: Option<string>, qtyValue: Option<string>, raw: JsNum)
    requires text != []
    requires FormUrlEncoded.Get(FormUrlEncoded.ParseQuery(text), "type") == typeValue
    requires FormUrlEncoded.Get(FormUrlEncoded.ParseQuery(text), "qty") == qtyValue
    requires RawQty(qtyValue) == raw
    ensures ParseMeta(Some(text)) == MetaOf(typeValue, raw)
  {
  }

  lemma MetaOfSerialized(m: Meta)
    ensures MetaOf(Some(PayTypeName(m.payType)), m.qty)
            == Meta(m.payType, if m.qty.Finite? && m.qty.d.NonNegative() then m.qty else Finite(One))
  {
  }

  /** A number written by `String` reads back through `Number`. */
  lemma RawQtyOf(x: JsNum)
    requires x.Valid()
    ensures RawQty(Some(ToString(x))) == x
  {
    var text := ToString(x);
    ToStringNotEmpty(x);
    ParseToString(x);
    assert RawQty(Some(text)) == ParseNumber(text);
  }

  lemma ToStringNotEmpty(x: JsNum)
    ensures ToString(x) != []
  {
    if x.Finite? {
      var c := Normalise(x.d.negative, x.d.significand, x.d.exponent);
      if c.significand != 0 {
        NatToStringSpec(c.significand);
      }
    }
  }

  /** A meta as parseMeta produces it survives the round trip unchanged. */
  lemma ParsedMetaRoundTrip(notes: Option<string>)
    ensures ParseMeta(Some(SerializeMeta(ParseMeta(notes)))) == ParseMeta(notes)
  {
    MetaRoundTrip(ParseMeta(notes));
  }

  // ---------------------------------------------------------------------
  // filterAndDerive

  /** The filter: a non-blank trimmed description and a non-zero amount
      (negative amounts stay). */
  predicate Keep(d: PaymentDetail)
  {
    |Trim(d.description)| > 0 && d.amount != 0.0
  }

  function Kept(details: seq<PaymentDetail>): (r: seq<PaymentDetail>)
    ensures |r| <= |details|
    ensures forall d :: d in r <==> d in details && Keep(d)
  {
    if details == [] then []
    else if Keep(details[0]) then [details[0]] + Kept(details[1..])
    else Kept(details[1..])
  }

  /** The kept entries of two lists joined are the kept entries of each,
      joined: the filter keeps input order. */
  lemma {:induction false} KeptAppend(a: seq<PaymentDetail>, b: seq<PaymentDetail>)
    ensures Kept(a + b) == Kept(a) + Kept(b)
    decreases |a|
  {
    if a == [] {
      assert a + b == b;
    } else {
      assert (a + b)[0] == a[0];
      assert (a + b)[1..] == a[1..] + b;
      KeptAppend(a[1..], b);
    }
  }

  /** The summary line of a detail with the given meta. */
  function ItemOf(d: PaymentDetail, meta: Meta): SummaryItem
    requires meta.qty.Finite?
  {
    var qty := meta.qty.d.Value();
    var hourly := meta.payType == Hourly;
    SummaryItem(
      if hourly then d.description + HourlyTag else d.description,
      d.amount,
      qty,
      if hourly then Some("hrs") else None,
      d.amount * qty)
  }

  /** The summary line of one kept detail. */
  function DeriveItem(d: PaymentDetail): SummaryItem
  {
    ItemOf(d, ParseMeta(d.notes))
  }

  function DeriveAll(details: seq<PaymentDetail>): (r: seq<SummaryItem>)
    ensures |r| == |details|
    ensures forall i :: 0 <= i < |details| ==> r[i] == DeriveItem(details[i])
  {
    if details == [] then [] else [DeriveItem(details[0])] + DeriveAll(details[1..])
  }

  datatype Derived = Derived(summary: seq<SummaryItem>, totalPayment: real)

  /** filterAndDerive: the summary of the kept details and its total. */
  function FilterAndDerive(details: seq<PaymentDetail>): Derived
  {
    var summary := DeriveAll(Kept(details));
    Derived(summary, SumTotals(summary))
  }

  /** What the summary line of a detail is, in terms of the detail and
      its meta. */
  lemma ItemOfSpec(d: PaymentDetail, meta: Meta)
    requires meta.qty.Finite? && meta.qty.d.NonNegative()
    ensures var item := ItemOf(d, meta);
            && (meta.payType == Hourly <==> item.description == d.description + HourlyTag)
            && (meta.payType == Hourly <==> item.qtySuffix == Some("hrs"))
            && (meta.payType != Hourly ==> item.qtySuffix == None && item.description == d.description)
            && item.payPerVisit == d.amount
            && item.numberOfVisits == meta.qty.d.Value()
            && item.numberOfVisits >= 0.0
            && item.total == d.amount * item.numberOfVisits
            && (item.numberOfVisits == 0.0 ==> item.total == 0.0)
  {
    assert |d.description + HourlyTag| != |d.description|;
    QtyValueNonNegative(meta.qty.d);
  }

  lemma QtyValueNonNegative(d: Dec)
    requires d.NonNegative()
    ensures d.Value() >= 0.0
  {
    if d.significand == 0 {
      assert d.Value() == 0.0;
    } else {
      var p := Pow10Real(d.exponent);
      assert d.Value() == 1.0 * (d.significand as real) * p;
    }
  }

  /** The summary has one item per kept detail, in order, and the total is
      the sum of the item totals. */
  lemma FilterAndDeriveSpec(details: seq<PaymentDetail>)
    ensures |FilterAndDerive(details).summary| == |Kept(details)| <= |details|
    ensures forall i :: 0 <= i < |Kept(details)| ==> FilterAndDerive(details).summary[i] == DeriveItem(Kept(details)[i])
    ensures FilterAndDerive(details).totalPayment == SumTotals(FilterAndDerive(details).summary)
  {
  }

  /** Deriving from two lists joined joins the summaries and adds the totals. */
  lemma FilterAndDeriveAppend(a: seq<PaymentDetail>, b: seq<PaymentDetail>)
    ensures FilterAndDerive(a + b).summary == FilterAndDerive(a).summary + FilterAndDerive(b).summary
    ensures FilterAndDerive(a + b).totalPayment == FilterAndDerive(a).totalPayment + FilterAndDerive(b).totalPayment
  {
    KeptAppend(a, b);
    DeriveAllAppend(Kept(a), Kept(b));
    SumTotalsAppend(DeriveAll(Kept(a)), DeriveAll(Kept(b)));
  }

  lemma DeriveAllAppend(a: seq<PaymentDetail>, b: seq<PaymentDetail>)
    ensures DeriveAll(a + b) == DeriveAll(a) + DeriveAll(b)
  {
    var l, r := DeriveAll(a), DeriveAll(b);
    forall i | 0 <= i < |a + b|
      ensures DeriveAll(a + b)[i] == (l + r)[i]
    {
      if i < |a| {
        assert (a + b)[i] == a[i];
      } else {
        assert (a + b)[i] == b[i - |a|];
      }
    }
  }

  // ---------------------------------------------------------------------
  // Form state

  const BlankDetail: PaymentDetail := PaymentDetail("", 0.0, None)

  /** The summary and total are those derived from the details. */
  predicate Consistent(f: PayStatementData)
  {
    FilterAndDerive(f.paymentDetails) == Derived(f.summary, f.totalPayment)
  }

  /** updateFormData with new details and their derived summary and total. */
  function WithDetails(f: PayStatementData, details: seq<PaymentDetail>): (g: PayStatementData)
    ensures Consistent(g)
    ensures g.paymentDetails == details
    ensures g == f.(paymentDetails := details, summary := g.summary, totalPayment := g.totalPayment)
  {
    var r := FilterAndDerive(details);
    f.(paymentDetails := details, summary := r.summary, totalPayment := r.totalPayment)
  }

  /** addPaymentDetail: appends a blank line. */
  function AddPaymentDetail(f: PayStatementData): PayStatementData
  {
    WithDetails(f, f.paymentDetails + [BlankDetail])
  }

  /** Adding a blank line leaves the summary and the total as they were. */
  lemma AddPaymentDetailSpec(f: PayStatementData)
    requires Consistent(f)
    ensures AddPaymentDetail(f).paymentDetails == f.paymentDetails + [BlankDetail]
    ensures AddPaymentDetail(f).summary == f.summary
    ensures AddPaymentDetail(f).totalPayment == f.totalPayment
  {
    FilterAndDeriveAppend(f.paymentDetails, [BlankDetail]);
    KeptBlank();
    assert f.summary + [] == f.summary;
  }

  /** The field `updatePaymentDetail` is given, with its new value. */
  datatype DetailField = Description(text: string) | Amount(value: real) | Notes(text: string)

  function SetField(d: PaymentDetail, field: DetailField): PaymentDetail
  {
    match field
    case Description(t) => d.(description := t)
    case Amount(v) => d.(amount := v)
    case Notes(t) => d.(notes := Some(t))
  }

  /** updatePaymentDetail: entry `index` gets the new field value. */
  function UpdatePaymentDetail(f: PayStatementData, index: nat, field: DetailField): PayStatementData
    requires index < |f.paymentDetails|
  {
    WithDetails(f, f.paymentDetails[index := SetField(f.paymentDetails[index], field)])
  }

  /** Only the named field of entry `index` changes; every other entry is
      identical, and the summary and total are re-derived from the new list. */
  lemma UpdatePaymentDetailSpec(f: PayStatementData, index: nat, field: DetailField)
    requires index < |f.paymentDetails|
    ensures var g := UpdatePaymentDetail(f, index, field);
            var old_ := f.paymentDetails[index];
            var new_ := g.paymentDetails[index];
            && |g.paymentDetails| == |f.paymentDetails|
            && (forall i :: 0 <= i < |f.paymentDetails| && i != index ==> g.paymentDetails[i] == f.paymentDetails[i])
            && (field.Description? ==> new_ == old_.(description := field.text))
            && (field.Amount? ==> new_ == old_.(amount := field.value))
            && (field.Notes? ==> new_ == old_.(notes := Some(field.text)))
            && Consistent(g)
            && g.payment == f.payment && g.paidTo == f.paidTo && g.notes == f.notes
  {
  }

  /** The details without position `index`, for any integer index. */
  function RemoveAt(ds: seq<PaymentDetail>, index: int): (r: seq<PaymentDetail>)
    ensures 0 <= index < |ds| ==> r == ds[..index] + ds[index + 1..]
    ensures !(0 <= index < |ds|) ==> r == ds
  {
    if ds == [] then []
    else if index == 0 then ds[1..]
    else
      var rest := RemoveAt(ds[1..], index - 1);
      assert 0 <= index < |ds| ==> ds[1..][..index - 1] == ds[1..index];
      assert 0 <= index < |ds| ==> ds[..index] == [ds[0]] + ds[1..index];
      assert !(0 <= index < |ds|) ==> [ds[0]] + ds[1..] == ds;
      [ds[0]] + rest
  }

  /** removePaymentDetail: `details.filter((_, i) => i !== index)`. */
  function RemovePaymentDetail(f: PayStatementData, index: int): PayStatementData
  {
    WithDetails(f, RemoveAt(f.paymentDetails, index))
  }

  /** Removing deletes exactly position `index`, keeps the rest in order and
      re-derives the summary; an index outside the list changes no entry. */
  lemma RemovePaymentDetailSpec(f: PayStatementData, index: int)
    ensures var g := RemovePaymentDetail(f, index);
            && (0 <= index < |f.paymentDetails| ==>
                  |g.paymentDetails| == |f.paymentDetails| - 1
                  && (forall i :: 0 <= i < index ==> g.paymentDetails[i] == f.paymentDetails[i])
                  && (forall i :: index <= i < |g.paymentDetails| ==> g.paymentDetails[i] == f.paymentDetails[i + 1]))
            && (!(0 <= index < |f.paymentDetails|) ==> g.paymentDetails == f.paymentDetails)
            && Consistent(g)
  {
  }

  /** The mount effect: summary and total re-derived from the details. */
  function Normalize(f: PayStatementData): PayStatementData
  {
    WithDetails(f, f.paymentDetails)
  }

  /** Re-deriving is idempotent and changes nothing on a consistent form. */
  lemma NormalizeSpec(f: PayStatementData)
    ensures Consistent(Normalize(f))
    ensures Normalize(Normalize(f)) == Normalize(f)
    ensures Consistent(f) ==> Normalize(f) == f
  {
  }

  /** The external pay-period effect: an empty id or the same id changes
      nothing; otherwise only the pay-period id changes. */
  function SyncExternalPayPeriod(f: PayStatementData, externalId: string): (g: PayStatementData)
    ensures externalId == "" || f.payment.payPeriodId == externalId ==> g == f
    ensures externalId != "" ==> g == f.(payment := f.payment.(payPeriodId := externalId))
    ensures Consistent(f) ==> Consistent(g)
  {
    if externalId == "" then f
    else if f.payment.payPeriodId != externalId then f.(payment := f.payment.(payPeriodId := externalId))
    else f
  }

  /** `a || b` for optional strings. */
  function OrElse(a: Option<string>, b: string): string
  {
    if a.Some? && a.value != "" then a.value else b
  }

  function IdOf(p: Option<PayPeriods.PayPeriod>): Option<string>
  {
    if p.Some? then Some(p.value.id) else None
  }

  /** The statement the form starts from without initial data. */
  function DefaultForm(now: Calendar.Instant): PayStatementData
  {
    var available := PayPeriods.GetAvailablePayPeriods(now);
    var first := if available == [] then None else Some(available[0].id);
    PayStatementData(
      CompanyName, Company, CompanyPhone,
      Payee("[Name]", Address(None, "[City, State Zipcode]", "", "")),
      Payment(OrElse(IdOf(PayPeriods.GetDefaultPayPeriod(now)), OrElse(first, "")), "Direct Deposit"),
      [BlankDetail],
      [SummaryItem("[name of building]", 0.0, 0.0, None, 0.0)],
      0.0,
      None)
  }

  /** The form's state right after mounting: the initial data (or the
      default statement) with its summary and total re-derived. */
  function Mounted(initial: Option<PayStatementData>, now: Calendar.Instant): PayStatementData
  {
    Normalize(if initial.Some? then initial.value else DefaultForm(now))
  }

  /** The default statement's placeholder summary line does not survive
      mounting: a blank detail yields an empty summary and a zero total. */
  lemma MountedDefault(now: Calendar.Instant)
    ensures Mounted(None, now).summary == []
    ensures Mounted(None, now).totalPayment == 0.0
    ensures Mounted(None, now).paymentDetails == [BlankDetail]
  {
    var f := DefaultForm(now);
    assert f.paymentDetails == [BlankDetail];
    assert Mounted(None, now) == WithDetails(f, [BlankDetail]);
    KeptBlank();
  }

  lemma KeptBlank()
    ensures Kept([BlankDetail]) == []
  {
    assert Trim("") == "";
  }

  /** The default statement's period is the default pay period whenever
      there is one. */
  lemma DefaultFormPeriod(now: Calendar.Instant)
    requires PayPeriods.GetDefaultPayPeriod(now).Some?
    ensures DefaultForm(now).payment.payPeriodId == PayPeriods.GetDefaultPayPeriod(now).value.id
  {
    var p := PayPeriods.GetDefaultPayPeriod(now).value;
    assert p in PayPeriods.GeneratedPeriods();
    GeneratedIdNonEmpty(p);
  }

  /** Every generated period has an id. */
  lemma GeneratedIdNonEmpty(p: PayPeriods.PayPeriod)
    requires p in PayPeriods.GeneratedPeriods()
    ensures p.id != ""
  {
    var ps := PayPeriods.GeneratedPeriods();
    var k :| 0 <= k < |ps| && ps[k] == p;
    PayPeriods.PeriodsShape(PayPeriods.AnchorDay(), PayPeriods.HorizonDay(), k);
    assert |PayPeriods.PeriodId(k)| >= 3;
  }

  // ---------------------------------------------------------------------
  // The detail row's inputs

  /** The pay-type select: the line's meta with the chosen type, written back. */
  function SetDetailPayType(f: PayStatementData, index: nat, t: PayType): PayStatementData
    requires index < |f.paymentDetails|
  {
    var meta := ParseMeta(f.paymentDetails[index].notes);
    UpdatePaymentDetail(f, index, Notes(SerializeMeta(meta.(payType := t))))
  }

  /** The quantity input: `parseFloat(value) || 0` as the new quantity. */
  function SetDetailQty(f: PayStatementData, index: nat, typed: JsNum): PayStatementData
    requires index < |f.paymentDetails|
  {
    var meta := ParseMeta(f.paymentDetails[index].notes);
    var qty := if typed.Truthy() then typed else Finite(Zero);
    UpdatePaymentDetail(f, index, Notes(SerializeMeta(meta.(qty := qty))))
  }

  /** The amount input: `parseFloat(value) || 0`, with NaN as None. */
  function SetDetailAmount(f: PayStatementData, index: nat, typed: Option<real>): PayStatementData
    requires index < |f.paymentDetails|
  {
    UpdatePaymentDetail(f, index, Amount(if typed.Some? then typed.value else 0.0))
  }

  /** The notes written into entry `index` are read back from it. */
  lemma NotesWritten(f: PayStatementData, index: nat, text: string)
    requires index < |f.paymentDetails|
    ensures UpdatePaymentDetail(f, index, Notes(text)).paymentDetails[index].notes == Some(text)
  {
  }

  /** Choosing a pay type changes the type and keeps the quantity. */
  lemma SetDetailPayTypeSpec(f: PayStatementData, index: nat, t: PayType)
    requires index < |f.paymentDetails|
    ensures var g := SetDetailPayType(f, index, t);
            ParseMeta(g.paymentDetails[index].notes)
            == Meta(t, ParseMeta(f.paymentDetails[index].notes).qty)
  {
    var meta := ParseMeta(f.paymentDetails[index].notes);
    var written := meta.(payType := t);
    NotesWritten(f, index, SerializeMeta(written));
    MetaRoundTrip(written);
    assert ParseMeta(Some(SerializeMeta(written))) == Meta(t, meta.qty);
  }

  /** Typing a quantity keeps the type; the quantity read back is the typed
      number when finite and not negative, 0 for an empty or unreadable
      input, and 1 for a negative or infinite one. */
  lemma SetDetailQtySpec(f: PayStatementData, index: nat, typed: JsNum)
    requires index < |f.paymentDetails| && typed.Valid()
    ensures var g := SetDetailQty(f, index, typed);
            var m := ParseMeta(g.paymentDetails[index].notes);
            && m.payType == ParseMeta(f.paymentDetails[index].notes).payType
            && m.qty == (if !typed.Truthy() then Finite(Zero)
                         else if typed.Finite? && typed.d.NonNegative() then typed
                         else Finite(One))
  {
    var meta := ParseMeta(f.paymentDetails[index].notes);
    var qty := if typed.Truthy() then typed else Finite(Zero);
    var written := meta.(qty := qty);
    NotesWritten(f, index, SerializeMeta(written));
    MetaRoundTrip(written);
    var expected := if !typed.Truthy() then Finite(Zero)
                    else if typed.Finite? && typed.d.NonNegative() then typed
                    else Finite(One);
    TypedQty(typed);
    assert ParseMeta(Some(SerializeMeta(written))) == Meta(meta.payType, expected);
  }

  lemma TypedQty(typed: JsNum)
    ensures var qty := if typed.Truthy() then typed else Finite(Zero);
            (if qty.Finite? && qty.d.NonNegative() then qty else Finite(One))
            == (if !typed.Truthy() then Finite(Zero)
                else if typed.Finite? && typed.d.NonNegative() then typed
                else Finite(One))
  {
  }
}
