# Pay statement creator: a verified model

This project models the logic of the Element Cleaning Systems payroll tool.
The tool is a browser application in which an office worker picks a
contractor and a biweekly pay period, enters or generates the payment lines,
and saves, prints or uploads the resulting pay statement. The model covers
four groups:

- **The pay-period calendar.** Biweekly periods are generated from the anchor
  Monday 2025-08-18 up to the horizon 2026-08-30, with ids `pp-001`, `pp-002`, ….
  On top of that table sit the "available" filter (a period stays visible for
  nine days after it ends), the lookups by instant and by id, and the
  three-step default choice. Modules: Calendar and PayPeriods.
- **Statement derivation.** The pay type and quantity of a payment line live
  in its notes as `type=…&qty=…`. From them the form derives the summary lines
  and the total, and it edits the lines. Three screens seed a statement from a
  contractor's active buildings: the home workspace, the quick-payroll screen
  and the payroll generator. The rendered statement has further rules: summary
  order, the "(hourly)" tag, total rows and unit suffixes. Modules:
  FormUrlEncoded, JsNumber, Statement, PayStatementForm, HomeLayout,
  StreamlinedPayroll, PayrollGenerator and PayStatementView.
- **Contractor records.** This group has three parts:
  - the in-memory contractor table and its persistence in browser storage;
  - the contractor manager, with its edit form, building list and the two
    upsert-by-name loops;
  - the search filter of the contractor picker.

  Modules: ContractorDatabase, ContractorManager and ContractorSelector.
- **Saved statements and filenames.** This group covers:
  - the storage key `payStatement_<name>_<timestamp>`, which the local client
    reads back into a listing sorted newest first;
  - the mapping between statements and database rows;
  - the sanitised PDF title and filename, and the page size.

  Modules: WebStorage, PayStatements, SupabaseRows and PdfTitle.

Text and Wrappers hold the shared string helpers and the Option and Result
types.

React state becomes explicit values, and each event handler becomes a
function from the old state to the new one. Some objects are updated in
place:

- the contractor table array;
- the entry objects of the two payroll screens, which the handlers assign
  through a copied list;
- browser storage.

These are Dafny classes, and their methods state the new state. The current
time, the local time-zone offset and the results of database queries are
parameters. Money and quantities are real numbers. A JavaScript number is a
decimal value, NaN or an infinity.

In a few places the code and the intended design disagree, and the model
follows the code:

- **Total rounding.** The statement total is the exact sum of the line totals.
  The code never rounds it to cents; rounding happens only when cents are
  written to the database.
- **Reset.** The contractor reset restores the defaults only when storage
  already held a list (Findings).
- **Saved date.** The `dateISO` of a listed statement is the UTC date of
  local midnight, which east of UTC is the day before the local date
  (Findings).
- **Generator period id.** The payroll generator stores the raw end date as
  the pay-period id.
- **Summary order.** The statement view sorts the summary only under the
  "bpv1" preset. That prop is not declared among the component's props.

## Model

| member | source | states |
|---|---|---|
| PayPeriods.GenerateBiWeeklyPeriods | src/utils/payPeriods.ts:20-48 | the `while (true)` loop over k returns exactly the table of candidates 0, 1, … that end on or before the horizon |
| PayPeriods.PeriodsShape | src/utils/payPeriods.ts:29-37 | period k starts 14k days after the anchor, ends 13 days after its start, ends on or before the horizon, and has id PeriodId(k) |
| PayPeriods.PeriodsStop | src/utils/payPeriods.ts:35 | the first candidate left out of the table ends after the horizon |
| PayPeriods.PeriodsTile | src/utils/payPeriods.ts:28-45 | each period starts the day after the previous one ends |
| PayPeriods.PadInjective | src/utils/payPeriods.ts:37 | zero-padding to three characters keeps numerals without leading zeros apart |
| PayPeriods.PeriodIdInjective | src/utils/payPeriods.ts:37 | equal `pp-NNN` ids come from equal indices |
| PayPeriods.PeriodIdDistinct | src/utils/payPeriods.ts:37 | distinct indices give distinct ids |
| PayPeriods.Id999 | src/utils/payPeriods.ts:37 | index 998 has id "pp-999" |
| PayPeriods.AvailablePeriods | src/utils/payPeriods.ts:55-65 | a period is available iff it is in the table and now is at most its end day 00:00 plus 9 days; never longer than the table |
| PayPeriods.FindContaining | src/utils/payPeriods.ts:67-77 | a found period contains now (start 00:00:00 to end 23:59:59) and is the first such period in list order; none is found iff no period contains now |
| PayPeriods.FindUpcoming | src/utils/payPeriods.ts:95-100 | a found period starts strictly after now and is the first such period in list order; none is found iff every period starts at or before now |
| PayPeriods.FindById | src/utils/payPeriods.ts:79-81 | a found period has that id and is the first with it; null iff no period has it |
| PayPeriods.DefaultPeriod | src/utils/payPeriods.ts:83-104 | a non-null default is an available period, and the default is null iff nothing is available |
| PayPeriods.ContainingIsVisible | src/utils/payPeriods.ts:57-63 | a period containing now is still available |
| PayPeriods.FindContainingAvailable | src/utils/payPeriods.ts:85-93 | searching the available list for the containing period finds what searching the whole table finds |
| PayPeriods.DefaultIsCurrent | src/utils/payPeriods.ts:83-93 | when a current period exists, the default is that period |
| PayPeriods.DefaultIsUpcoming | src/utils/payPeriods.ts:95-100 | when no available period contains now, the default is the first available period, in table order, that starts after now |
| PayPeriods.DefaultIsLatest | src/utils/payPeriods.ts:102-103 | when no available period contains now or starts after it, the default is the last available period, which has ended and is still within its nine grace days |
| PayPeriods.CurrentUnique | src/utils/payPeriods.ts:67-77 | in a generated table the period found for now is the only one that contains now |
| PayPeriods.PeriodsOrdered | src/utils/payPeriods.ts:28-45 | a later period starts after an earlier one ends |
| PayPeriods.AtMostOneContains | src/utils/payPeriods.ts:67-77 | at most one generated period contains a given instant |
| PayPeriods.FindByIdGenerated | src/utils/payPeriods.ts:79-81 | looking up PeriodId(k) returns period k of the table |
| PayPeriods.FindByIdOnlyGenerated | src/utils/payPeriods.ts:79-81 | only ids PeriodId(k) with k inside the table are found |
| PayPeriods.FindByIdBeyond | src/utils/payPeriods.ts:79-81 | the id of a candidate past the table is not found |
| PayPeriods.UnknownIdNotFound | src/utils/payPeriods.ts:79-81 | "pp-999" is not found in the application's table |
| PayPeriods.AvailableIsSuffix | src/utils/payPeriods.ts:59-64 | over a list whose end days increase, the available periods form a suffix |
| PayPeriods.AllVisible | src/utils/payPeriods.ts:59-64 | over such a list, if the first period is available then all are |
| PayPeriods.GeneratedAvailableIsSuffix | src/utils/payPeriods.ts:55-65 | the available list of a generated table is a suffix of that table |
| PayPeriods.GeneratedTable | src/utils/payPeriods.ts:50-53 | the application's table has 27 periods, and pp-027 runs from 2026-08-17 to 2026-08-30 |
| PayPeriods.GeneratedCount | src/utils/payPeriods.ts:50-53 | the application's table has 27 periods |
| PayPeriods.ShortTable | src/utils/payPeriods.ts:20-48 | the anchor 2025-08-18 with the horizon 2025-09-15 gives two periods, the second ending 2025-09-14 |
| PayPeriods.GetAvailablePayPeriods | src/utils/payPeriods.ts:55-65 | the available periods are a suffix of the application's table, and a period is in it exactly when it is in the table and visible at now |
| PayPeriods.GetCurrentPayPeriod | src/utils/payPeriods.ts:67-77 | the current period is in the table, contains now and is the only period that does; null exactly when no period contains now |
| PayPeriods.GetPayPeriodById | src/utils/payPeriods.ts:79-81 | the id of period k of the table finds period k; a found period carries the id and is in the table |
| PayPeriods.GetDefaultPayPeriod | src/utils/payPeriods.ts:83-104 | the default is an available period, null exactly when nothing is available, and the current period whenever there is one |
| PayPeriods.FirstPeriodText | src/utils/payPeriods.ts:1-17 | the first period of the table is "pp-001" with start "2025-08-18", end "2025-08-31" and label "08/18/2025 – 08/31/2025" |
| PayPeriods.DateTexts | src/utils/payPeriods.ts:9-17 | for any valid calendar date, the ISO text of its day is year-MM-DD and the label text is MM/DD/year, with zero-padded month and day |
| Calendar.DayInstants | src/utils/payPeriods.ts:71-73 | a day's 23:59:59 lies between its midnight and the next one, and day order is the order of their midnights |
| Calendar.CivilRoundTrip | src/utils/payPeriods.ts:24-33 | the calendar date of the day number of a valid date is that date |
| Calendar.DaysRoundTrip | src/utils/payPeriods.ts:30-41 | every day number has a valid calendar date whose day number is that day |
| Calendar.DaysFromCivilInjective | src/utils/payPeriods.ts:24-33 | distinct valid dates have distinct day numbers |
| Calendar.Pad2Digits | src/utils/payPeriods.ts:9 | below 100, the padded text is the tens digit followed by the units digit |
| Calendar.Pad2Injective | src/utils/payPeriods.ts:9 | distinct numbers below 100 pad to distinct texts |
| Calendar.IsoTextInjective | src/utils/payPeriods.ts:10-11 | the year-MM-DD text determines its year, month and day |
| Calendar.FormatISOInjective | src/utils/payPeriods.ts:10-11 | distinct days have distinct ISO dates |
| Text.IntToStringInjective | src/utils/payPeriods.ts:11 | distinct integers have distinct decimal texts |
| PayStatementForm.MetaOf | src/components/PayStatementForm.tsx:77-83 | the quantity read is finite and not negative, and valid whenever the raw number is |
| PayStatementForm.ParseMeta | src/components/PayStatementForm.tsx:73-87 | whatever the notes, the quantity is a finite, non-negative, well-formed number |
| PayStatementForm.ParseMetaEmpty | src/components/PayStatementForm.tsx:75 | missing and empty notes both read as perVisit with quantity 1 |
| PayStatementForm.MetaRoundTrip | src/components/PayStatementForm.tsx:73-93 | reading back what serializeMeta wrote keeps the pay type, and keeps the quantity when it is finite and not negative; any other quantity reads back as 1 |
| PayStatementForm.GetTwo | src/components/PayStatementForm.tsx:77-78 | in the two-pair list serializeMeta writes, `get` finds each value by its name |
| PayStatementForm.ParseMetaText | src/components/PayStatementForm.tsx:76-83 | non-empty notes read as the meta of their `type` and `qty` values |
| PayStatementForm.MetaOfSerialized | src/components/PayStatementForm.tsx:80-82 | the type name serializeMeta writes reads back as the same pay type |
| PayStatementForm.RawQtyOf | src/components/PayStatementForm.tsx:78-91 | `Number(String(q))` is q for every well-formed number |
| PayStatementForm.ToStringNotEmpty | src/components/PayStatementForm.tsx:78-91 | `String(q)` is never empty, so `\|\| 1` never replaces it |
| PayStatementForm.ParsedMetaRoundTrip | src/components/PayStatementForm.tsx:73-93 | a meta read from any notes survives writing and re-reading unchanged |
| PayStatementForm.Kept | src/components/PayStatementForm.tsx:98-100 | a detail is kept iff its trimmed description is non-empty and its amount is non-zero (negative amounts stay); never longer than the input |
| PayStatementForm.KeptAppend | src/components/PayStatementForm.tsx:98-100 | filtering two lists joined gives the two filtered lists joined, so input order is kept |
| PayStatementForm.DeriveAll | src/components/PayStatementForm.tsx:101-115 | one summary item per kept detail, position by position |
| PayStatementForm.ItemOfSpec | src/components/PayStatementForm.tsx:101-115 | the description gets " (hourly)" iff the type is hourly, the suffix is "hrs" iff hourly, rate is the amount, quantity is the meta quantity (never negative), total is amount × quantity, and a quantity of 0 gives a total of 0 |
| PayStatementForm.QtyValueNonNegative | src/components/PayStatementForm.tsx:82 | a non-negative decimal has a non-negative value |
| PayStatementForm.FilterAndDeriveSpec | src/components/PayStatementForm.tsx:96-118 | the summary has one item per kept detail in order, never more items than details, and the total is the sum of the item totals |
| PayStatementForm.FilterAndDeriveAppend | src/components/PayStatementForm.tsx:96-118 | deriving from two lists joined joins the summaries and adds the totals |
| PayStatementForm.DeriveAllAppend | src/components/PayStatementForm.tsx:101 | mapping two lists joined joins the mapped lists |
| PayStatementForm.WithDetails | src/components/PayStatementForm.tsx:144-148 | the new state has the given details, a summary and total derived from them, and every other field unchanged |
| PayStatementForm.AddPaymentDetailSpec | src/components/PayStatementForm.tsx:150-158 | adding appends the blank line `{"", 0}` and leaves the summary and the total as they were |
| PayStatementForm.UpdatePaymentDetailSpec | src/components/PayStatementForm.tsx:160-169 | only the named field of entry i changes, every other entry is identical, and the summary and total are re-derived |
| PayStatementForm.RemoveAt | src/components/PayStatementForm.tsx:172 | `filter((_, i) => i !== index)` deletes exactly position index, and deletes nothing for an index outside the list |
| PayStatementForm.RemovePaymentDetailSpec | src/components/PayStatementForm.tsx:171-175 | removing shortens the list by one, keeps the other entries in order, and re-derives the summary; an index outside the list changes no entry |
| PayStatementForm.NormalizeSpec | src/components/PayStatementForm.tsx:121-129 | the mount-time re-derivation makes the form consistent, is idempotent, and changes nothing on a consistent form |
| PayStatementForm.SyncExternalPayPeriod | src/components/PayStatementForm.tsx:132-142 | an empty or equal external id changes nothing; any other id replaces only the pay-period id, and consistency is kept |
| PayStatementForm.MountedDefault | src/components/PayStatementForm.tsx:34-69 | without initial data the placeholder summary line does not survive mounting: the summary is empty and the total 0 |
| PayStatementForm.KeptBlank | src/components/PayStatementForm.tsx:58-100 | the blank detail is filtered out |
| PayStatementForm.DefaultFormPeriod | src/components/PayStatementForm.tsx:54 | the default statement takes the default pay period's id whenever there is one |
| PayStatementForm.SetDetailPayTypeSpec | src/components/PayStatementForm.tsx:505-515 | choosing a pay type changes the line's type and keeps its quantity |
| PayStatementForm.SetDetailQtySpec | src/components/PayStatementForm.tsx:534-542 | typing a quantity keeps the type; the quantity read back is the typed number when finite and not negative, 0 for an empty or unreadable input, and 1 for a negative or infinite one |
| PayStatementForm.TypedQty | src/components/PayStatementForm.tsx:536 | `parseFloat(value) \|\| 0` followed by parseMeta's check gives 0, the number, or 1 |
| FormUrlEncoded.HexDigit | src/components/PayStatementForm.tsx:88-92 | the hexadecimal digit the serializer writes for v reads back as v |
| FormUrlEncoded.DecodeEncodeChar | src/components/PayStatementForm.tsx:76-92 | decoding the escape of one character gives back that character |
| FormUrlEncoded.DecodeEncode | src/components/PayStatementForm.tsx:76-92 | decoding undoes encoding, for every string |
| FormUrlEncoded.EncodeNoSeparators | src/components/PayStatementForm.tsx:88-92 | encoded text holds no `&` and no `=` |
| FormUrlEncoded.Get | src/components/PayStatementForm.tsx:77-78 | `get` finds a value iff some pair has that name |
| FormUrlEncoded.NameValueEncoded | src/components/PayStatementForm.tsx:76-92 | an encoded `name=value` piece reads back as the pair |
| FormUrlEncoded.ParseSerializeTwo | src/components/PayStatementForm.tsx:73-93 | parsing the serialisation of two pairs gives the two pairs back |
| FormUrlEncoded.SerializeTwoShape | src/components/PayStatementForm.tsx:89-92 | two pairs serialise as `a=b&c=d` |
| FormUrlEncoded.EncodeFirst | src/components/PayStatementForm.tsx:76 | a name that does not start with `?` does not start with `?` once encoded, so no leading `?` is dropped |
| FormUrlEncoded.SplitTwo | src/components/PayStatementForm.tsx:76 | two pieces without `&` joined by `&` split back into the two pieces |
| FormUrlEncoded.PairsOfTwo | src/components/PayStatementForm.tsx:76 | two non-empty pieces become two pairs |
| JsNumber.Normalise | src/components/PayStatementForm.tsx:78-91 | the decimal is brought to its one canonical form, keeping the sign of a non-zero value; zero becomes +0 |
| JsNumber.NormaliseValue | src/components/PayStatementForm.tsx:78-91 | normalising keeps the number's value |
| JsNumber.NormaliseCanonical | src/components/PayStatementForm.tsx:78-91 | a canonical decimal is its own normal form |
| JsNumber.NormaliseSign | src/components/PayStatementForm.tsx:78 | normalising a negative literal is normalising its magnitude with the sign set |
| JsNumber.NormaliseShift | src/components/PayStatementForm.tsx:78 | trailing zeros of a significand move into the exponent |
| JsNumber.ParseNumber | src/components/PayStatementForm.tsx:78 | `Number(s)` is NaN, an infinity, or a finite value in canonical form |
| JsNumber.ParseTrimmed | src/components/PayStatementForm.tsx:78 | the same, once the surrounding white space is gone |
| JsNumber.LeadingDigits | src/components/PayStatementForm.tsx:78 | the digit run that starts a literal is all digits and is followed by a non-digit or the end |
| JsNumber.HexValue | src/components/PayStatementForm.tsx:76-78 | a hexadecimal digit's value is below 16, any other character gives 16 |
| JsNumber.ExponentRoundTrip | src/components/PayStatementForm.tsx:78-91 | the exponent suffix `String` writes reads back as the same exponent |
| JsNumber.FormatDigitsParses | src/components/PayStatementForm.tsx:78-91 | every notation `String` uses for a positive number (plain, fraction, small, exponent) reads back as that number |
| JsNumber.FormatDigitsEnds | src/components/PayStatementForm.tsx:91 | the text of a positive number starts and ends with a digit, so `Number` does not trim it and does not read it as hex |
| JsNumber.ParseToString | src/components/PayStatementForm.tsx:78-91 | `Number(String(x)) == x` for every well-formed number, NaN and the infinities included |
| JsNumber.ParseToStringNonZero | src/components/PayStatementForm.tsx:78-91 | the same for a non-zero finite number |
| JsNumber.NegativeRoundTrip | src/components/PayStatementForm.tsx:78-91 | the same for a negative number written with a leading "-" |
| JsNumber.DigitsValueConcat | src/components/PayStatementForm.tsx:78 | the value of two digit strings joined is the first scaled by the second's length plus the second |
| JsNumber.ParseUnsignedFraction | src/components/PayStatementForm.tsx:78 | a literal `a.b` reads as the digits of both parts |
| JsNumber.Pow10Add | src/components/PayStatementForm.tsx:78 | 10^(a+b) = 10^a · 10^b |
| JsNumber.Round | src/lib/data/payStatements.ts:153 | Math.round gives the integer within half a unit of the number, halves going up |
| Statement.StripHourly | src/components/PayStatement.tsx:324 | the shown description is a prefix of the stored one |
| Statement.StripHourlyTag | src/components/PayStatement.tsx:324-384 | a name with " (hourly)" appended is shown as the name again |
| Statement.StripHourlyOther | src/components/PayStatement.tsx:324-384 | a description that does not end in "(hourly)" is shown unchanged |
| Statement.StripHourlyUpper | src/components/PayStatement.tsx:324-384 | the suffix is matched in any letter case: " (HOURLY)" goes too |
| Statement.SumTotalsAppend | src/components/PayStatementForm.tsx:116 | summing the totals of two lists joined adds the two sums |
| Statement.SumAmountsAppend | src/components/PayrollGenerator.tsx:118-121 | summing the amounts of two lists joined adds the two sums |
| Statement.ActiveBuildings | src/components/HomeLayout.tsx:51-53 | a building is kept iff it is in the list and active; never longer than the list |
| Statement.ActiveBuildingsAppend | src/components/HomeLayout.tsx:51-53 | filtering two lists joined gives the two filtered lists joined, so building order is kept |
| PayStatementView.LexTotal | src/components/PayStatement.tsx:16-20 | any two descriptions are ordered one way or the other |
| PayStatementView.LexTrans | src/components/PayStatement.tsx:16-20 | the description order is transitive |
| PayStatementView.LexRefl | src/components/PayStatement.tsx:16-20 | every description is ordered with itself |
| PayStatementView.Insert | src/components/PayStatement.tsx:16-20 | inserting adds exactly one item and keeps every other |
| PayStatementView.InsertSorted | src/components/PayStatement.tsx:16-20 | inserting into an ordered list gives an ordered list |
| PayStatementView.TailSorted | src/components/PayStatement.tsx:16-20 | the tail of an ordered list is ordered |
| PayStatementView.SortedFront | src/components/PayStatement.tsx:16-20 | an item no greater than the head of an ordered list can go in front |
| PayStatementView.SortedBehind | src/components/PayStatement.tsx:16-20 | the head of an ordered list stays in front of an item inserted into its tail |
| PayStatementView.SortByDescription | src/components/PayStatement.tsx:16-20 | sorting a copy gives a rearrangement of the summary, the same length |
| PayStatementView.SortSorted | src/components/PayStatement.tsx:16-20 | the sorted copy is ordered by lower-cased description |
| PayStatementView.SortedSummarySpec | src/components/PayStatement.tsx:12-21 | under "bpv1" the rows are an ordered rearrangement of the summary; under any other preset, or none, they are the summary as stored |
| PayStatementView.KeyIgnoresCase | src/components/PayStatement.tsx:17-19 | "Alpha" and "alpha" compare equal either way |
| PayStatementView.DetailsRowSpec | src/components/PayStatement.tsx:374-411 | a tagged description shows the bare name; any description not ending in "(hourly)" is shown as is |
| PayStatementView.TotalRowConsistent | src/components/PayStatement.tsx:443-444 | for a statement whose summary and total were derived from its details, the total rows equal the stored total |
| PayStatementView.TotalRowIgnoresStored | src/components/PayStatement.tsx:443-444 | the total rows sum the summary, not totalPayment: an empty summary shows 0 |
| PayStatementView.PeriodLineSpec | src/components/PayStatement.tsx:182 | the pay-period line of a generated id shows that period's label |
| PayStatementView.PeriodLineUnknown | src/components/PayStatement.tsx:182 | an unknown id such as "pp-999" shows "N/A" |
| PayStatementView.SuffixTexts | src/components/PayStatement.tsx:657-671 | an hourly line reads " hrs" and, under "bpv1", " / hr"; a line with no suffix reads " units"; any non-"hrs" line reads " / unit" under "bpv1"; other presets show no rate suffix |
| PayStatementView.DerivedHourlyShown | src/components/PayStatement.tsx:384-671 | a line the form derives as hourly shows its bare name in the "Payment Details" table and " hrs" after its quantity in the summary table |
| HomeLayout.SeedDetails | src/components/HomeLayout.tsx:53-59 | one seeded line per building, position by position |
| HomeLayout.InitialDataNone | src/components/HomeLayout.tsx:50 | nothing is seeded without a selected contractor |
| HomeLayout.InitialDataSpec | src/components/HomeLayout.tsx:49-98 | one line per active building in building order, a single `{"", 0}` line when there is none, the period from the top bar then the default then "", and the contractor's name, address and payment method |
| HomeLayout.SeedDetailSpec | src/components/HomeLayout.tsx:54-58 | a seeded line is the building name, with " (hourly)" exactly for hourly buildings, and carries the hourly rate (0 when missing) or the per-visit rate, with no notes |
| HomeLayout.SeedDetailDerives | src/components/HomeLayout.tsx:54-58 | the form reads a seeded line as per-visit with quantity 1, so the name keeps one " (hourly)" tag and gets no "hrs" suffix |
| HomeLayout.SyncFromTopBar | src/components/HomeLayout.tsx:34-41 | no data stays no data, an equal id changes nothing, and otherwise only the pay-period id changes |
| HomeLayout.SyncToTopBar | src/components/HomeLayout.tsx:43-47 | the top bar takes the form's id when it is non-empty, and keeps its own otherwise |
| HomeLayout.SyncSettles | src/components/HomeLayout.tsx:34-47 | after the form-data effect the top-bar effect changes nothing: the two effects settle in one round |
| HomeLayout.SyncKeepsConsistent | src/components/HomeLayout.tsx:34-41 | the top-bar effect keeps the summary and total derived from the details |
| StreamlinedPayroll.VisitEntry.constructor | src/components/StreamlinedPayroll.tsx:51-59 | a new entry object holds exactly the given values |
| StreamlinedPayroll.Values | src/components/StreamlinedPayroll.tsx:44 | the values of a list of entries, position by position |
| StreamlinedPayroll.SeedEntries | src/components/StreamlinedPayroll.tsx:51-59 | one seeded value per building, position by position |
| StreamlinedPayroll.Seed | src/components/StreamlinedPayroll.tsx:47-62 | one new entry object per active building, in building order, with perVisit when the type is unset, the rates (0 when missing), no visits, no hours and no notes |
| StreamlinedPayroll.UpdatePayType | src/components/StreamlinedPayroll.tsx:63-67 | the entry at index gets the new type and no other entry object changes |
| StreamlinedPayroll.UpdateRate | src/components/StreamlinedPayroll.tsx:69-77 | a per-visit entry gets the new per-visit rate, an hourly one the new hourly rate; no other field and no other entry object changes |
| StreamlinedPayroll.UpdateHours | src/components/StreamlinedPayroll.tsx:79-83 | only the hours of the entry at index change |
| StreamlinedPayroll.UpdateVisitCount | src/components/StreamlinedPayroll.tsx:85-89 | only the visit count of the entry at index changes |
| StreamlinedPayroll.UpdateNotes | src/components/StreamlinedPayroll.tsx:91-95 | only the notes of the entry at index change |
| StreamlinedPayroll.HandlerChangesOneValue | src/components/StreamlinedPayroll.tsx:63-95 | on a list without repeated objects, a handler's change to entry index is the only change to the list's values |
| StreamlinedPayroll.Billed | src/components/StreamlinedPayroll.tsx:110-114 | an entry is billed iff it is in the list and its type's quantity is positive; the result is no longer than the list |
| StreamlinedPayroll.BilledAppend | src/components/StreamlinedPayroll.tsx:110-114 | the billing filter distributes over concatenation, so billed entries keep their order and each appears once per entry |
| StreamlinedPayroll.Summaries | src/components/StreamlinedPayroll.tsx:117-131 | one summary line per billed entry, position by position |
| StreamlinedPayroll.Details | src/components/StreamlinedPayroll.tsx:134-137 | one details line per summary line, position by position |
| StreamlinedPayroll.GenerateSkipped | src/components/StreamlinedPayroll.tsx:106 | generation yields nothing iff there is no contractor or no period id |
| StreamlinedPayroll.GenerateSpec | src/components/StreamlinedPayroll.tsx:105-167 | the summary holds the billed entries in order with rate, quantity, suffix and total chosen by type; the details match the summary line by line with the tag stripped; the total is totalAmount over all entries |
| StreamlinedPayroll.HourlyDetailName | src/components/StreamlinedPayroll.tsx:120-135 | the details line of an hourly entry shows the bare building name |
| StreamlinedPayroll.TotalMatchesSummary | src/components/StreamlinedPayroll.tsx:97-103 | when no quantity is negative, the statement's total equals the sum of its summary totals |
| StreamlinedPayroll.UnbilledLine | src/components/StreamlinedPayroll.tsx:97-114 | an unbilled entry with a non-negative quantity contributes 0 to the total |
| StreamlinedPayroll.SummariesAppend | src/components/StreamlinedPayroll.tsx:117 | mapping two lists joined joins the mapped lists |
| StreamlinedPayroll.NegativeQuantityTotal | src/components/StreamlinedPayroll.tsx:97-114 | a per-visit line at 10 with -1 visits gives a total of -10 and an empty summary, so the equality above needs its condition |
| StreamlinedPayroll.InitialPeriodIdDefault | src/components/StreamlinedPayroll.tsx:41-43 | whenever a period is available, the screen starts with the default period's id |
| PayrollGenerator.GeneratorEntry.constructor | src/components/PayrollGenerator.tsx:38-45 | a new entry object holds exactly the given values |
| PayrollGenerator.Values | src/components/PayrollGenerator.tsx:31 | the values of a list of entries, position by position |
| PayrollGenerator.HandleContractorSelect | src/components/PayrollGenerator.tsx:33-47 | one new, distinct entry object per active building, in building order, with the seeded values |
| PayrollGenerator.SeedEntryDefined | src/components/PayrollGenerator.tsx:38-45 | a seeded entry has its rates defined, 0 visits and 0 hours, and perVisit unless the building is hourly |
| PayrollGenerator.UpdateVisitCount | src/components/PayrollGenerator.tsx:49-53 | only the visit count of the entry at index changes |
| PayrollGenerator.UpdateHours | src/components/PayrollGenerator.tsx:55-59 | only the hours of the entry at index change |
| PayrollGenerator.BillableEntries | src/components/PayrollGenerator.tsx:65-96 | an entry is kept iff it is in the list and is a per-visit entry with visits > 0 or an hourly one with `hours ?? visits ?? 0` > 0 |
| PayrollGenerator.DetailsOf | src/components/PayrollGenerator.tsx:72-87 | one details line per kept entry, position by position |
| PayrollGenerator.SummariesOf | src/components/PayrollGenerator.tsx:97-116 | one summary line per kept entry, position by position |
| PayrollGenerator.GenerateSpec | src/components/PayrollGenerator.tsx:61-148 | details and summary have equal length and come from the same entries in order; a per-visit detail reads "<name> - <visits> visits" beside the summary's bare name, an hourly detail is the name beside the summary's tagged name; no summary line has a suffix; the total is the sum of detail amounts; the period id is the raw end date |
| PayrollGenerator.GenerateSkipped | src/components/PayrollGenerator.tsx:62 | generation yields nothing iff there is no contractor or no end date |
| PayrollGenerator.DetailsMatchSummary | src/components/PayrollGenerator.tsx:72-121 | with hours defined on every entry, the sum of detail amounts equals the sum of summary totals |
| PayrollGenerator.SingleLine | src/components/PayrollGenerator.tsx:118-121 | the sums over one line are that line's amount and total |
| PayrollGenerator.LineAgrees | src/components/PayrollGenerator.tsx:74-105 | with hours defined, a line's detail amount equals its summary total |
| PayrollGenerator.DetailsAppend | src/components/PayrollGenerator.tsx:72 | mapping two lists joined joins the mapped lists |
| PayrollGenerator.SummariesAppend | src/components/PayrollGenerator.tsx:97 | mapping two lists joined joins the mapped lists |
| PayrollGenerator.GeneratedTotalMatches | src/components/PayrollGenerator.tsx:118-147 | a generated statement's total is the sum of its summary totals whenever hours are defined |
| PayrollGenerator.UndefinedHoursDiffer | src/components/PayrollGenerator.tsx:74-99 | without hours, an hourly line with 2 visits at 10 is billed 20 in the details but 0 in the summary |
| PayrollGenerator.BillableAppend | src/components/PayrollGenerator.tsx:65-71 | filtering two lists joined gives the two filtered lists joined |
| PayrollGenerator.TotalAmountMatchesDetails | src/components/PayrollGenerator.tsx:153-159 | with no negative quantity, the running total equals the total of the generated details |
| PayrollGenerator.LastLine | src/components/PayrollGenerator.tsx:153-159 | a single line's running amount equals its generated detail amount, 0 when it is not billed |
| ContractorDatabase.ContractorList.constructor | src/data/contractorDatabase.ts:202 | a shared contractor array starts out holding exactly the given records |
| ContractorDatabase.ContractorStore.constructor | src/data/contractorDatabase.ts:161 | the contractor storage entry starts with the given window flag and stored list |
| ContractorDatabase.SaveContractors | src/data/contractorDatabase.ts:189-199 | with a window the stored list becomes exactly the given records; without one the store is untouched |
| ContractorDatabase.LoadContractors | src/data/contractorDatabase.ts:164-186 | a stored non-empty list is returned as loaded; otherwise the defaults array itself is returned (the same object) and, with a window, written back to storage; without a window nothing is stored |
| ContractorDatabase.ContractorDb.constructor | src/data/contractorDatabase.ts:202 | the module-level table is the result of loading: the stored list when usable, otherwise the defaults array object, saved when a window exists |
| ContractorDatabase.ActiveOf | src/data/contractorDatabase.ts:205-207 | a record is in the result exactly when it is in the list and active; the result is no longer than the list |
| ContractorDatabase.ActiveOfAppend | src/data/contractorDatabase.ts:205-207 | the active filter distributes over concatenation, so active records keep their stored order and each appears once per stored occurrence |
| ContractorDatabase.ContractorDb.GetActiveContractors | src/data/contractorDatabase.ts:205-207 | the result is ActiveOf of the table, so it holds exactly the active records in stored order (ActiveOfAppend) |
| ContractorDatabase.IndexOfId | src/data/contractorDatabase.ts:236-238 | the found index is the first record with that id; no index means no record has it |
| ContractorDatabase.ContractorDb.GetContractorById | src/data/contractorDatabase.ts:209-211 | a record is found exactly when some record has the id, and the found one has that id and is in the table |
| ContractorDatabase.FirstByName | src/data/contractorDatabase.ts:213-217 | the found record is the first whose lower-cased name contains the lower-cased query; none found means no record matches |
| ContractorDatabase.EmptyQueryFirst | src/data/contractorDatabase.ts:213-217 | the empty query matches every name, so a search by it returns the first record |
| ContractorDatabase.ContractorDb.AddContractor | src/data/contractorDatabase.ts:219-230 | appends the given fields with a "contractor-<now>" id and today's date, returns that record and saves the whole table |
| ContractorDatabase.ContractorDb.UpdateContractor | src/data/contractorDatabase.ts:232-245 | merges the updates into the first record with the id and saves, answering true; with no such record the table and the store are unchanged and the answer is false |
| ContractorDatabase.ContractorDb.DeactivateContractor | src/data/contractorDatabase.ts:247-249 | clears isActive on the first record with the id and on nothing else, answering whether it existed; the changed table is saved when a window exists, and with no such record the store is unchanged |
| ContractorDatabase.ContractorDb.Refresh | src/data/contractorDatabase.ts:252-255 | the table is the stored list when it is usable, and storage is left as it was; otherwise the table is the defaults' contents, or nothing when the table is the defaults array itself, and with a window that same list is written to storage |
| ContractorDatabase.ContractorDb.SaveCurrent | src/data/contractorDatabase.ts:258-260 | the stored list becomes the table as it is, when a window exists |
| ContractorDatabase.ContractorDb.Reset | src/data/contractorDatabase.ts:263-270 | as written: the table ends up the defaults' old contents, or empty when the table is the defaults array; what is stored matches the table |
| ContractorDatabase.ContractorDb.ResetToDefaults | src/data/contractorDatabase.ts:263-270 | as intended: the table and the stored list are the six default records |
| ContractorDatabase.FirstVisitReset | src/data/contractorDatabase.ts:263-270 | on a first visit (a window, nothing stored) the written reset leaves an empty table and stores the empty list |
| ContractorDatabase.FirstVisitResetToDefaults | src/data/contractorDatabase.ts:263-270 | on the same visit the intended reset restores all six default records |
| ContractorDatabase.DefaultsAllActive | src/data/contractorDatabase.ts:4-158 | every default record is active, so the active list of the defaults is the defaults |
| ContractorDatabase.ActiveAll | src/data/contractorDatabase.ts:205-207 | filtering a list whose records are all active returns it unchanged |
| ContractorDatabase.DeactivateRemovesFromActive | src/data/contractorDatabase.ts:247-249 | after deactivating a record it is no longer active-listed, every other active record still is, and no record becomes active |
| ContractorSelector.Filtered | src/components/ContractorSelector.tsx:33-39 | a contractor is offered exactly when it is listed and its lower-cased name contains the lower-cased term or its account's last four digits contain the term; never more than the list |
| ContractorSelector.FilteredAppend | src/components/ContractorSelector.tsx:33-39 | the filter keeps list order: filtering two lists joined is joining their filtered lists |
| ContractorSelector.ContainsEmpty | src/components/ContractorSelector.tsx:36 | every string contains the empty string |
| ContractorSelector.ContainsSelf | src/components/ContractorSelector.tsx:36 | every string contains itself |
| ContractorSelector.EmptyTermAll | src/components/ContractorSelector.tsx:33-39 | with an empty search box every loaded contractor is offered, in order |
| ContractorSelector.Mounted | src/components/ContractorSelector.tsx:15-31 | after loading, the list is ActiveOf of the rows, so it holds exactly the active contractors in stored order (ActiveOfAppend); the search box is empty and the drop-down is closed |
| ContractorSelector.Type | src/components/ContractorSelector.tsx:57-59 | typing sets the search term to the text and opens the drop-down, leaving the list alone |
| ContractorSelector.Select | src/components/ContractorSelector.tsx:41-45 | selecting reports that contractor, puts its name in the search box and closes the drop-down |
| ContractorSelector.SelectedStaysListed | src/components/ContractorSelector.tsx:33-45 | after a selection the chosen contractor still passes the filter on its own name |
| ContractorSelector.OnlyActiveOffered | src/components/ContractorSelector.tsx:20-39 | whatever is typed, only active contractors are ever offered |
| ContractorSelector.AccountFound | src/components/ContractorSelector.tsx:37 | typing a contractor's account last four digits finds that contractor |
| ContractorSelector.PanelBuildings | src/components/ContractorSelector.tsx:121-123 | the details panel lists exactly the selected contractor's active buildings |
| ContractorManager.ResetForm | src/components/ContractorManager.tsx:47-66 | the form goes back to a blank active contractor in WA paid by direct deposit with no buildings, nothing is being edited and the add form is hidden; the list is kept |
| ContractorManager.HandleEdit | src/components/ContractorManager.tsx:68-72 | editing a contractor remembers it, fills the form with all its fields and shows the form |
| ContractorManager.EditUnchangedWritesSame | src/components/ContractorManager.tsx:68-84 | saving an edit form left as it was filled writes back exactly the record that was being edited |
| ContractorManager.SaveRequest | src/components/ContractorManager.tsx:74-90 | nothing is sent exactly when the name is missing or empty; otherwise an update of the edited record's id with the form, or an add of the form when nothing is being edited |
| ContractorManager.AfterSave | src/components/ContractorManager.tsx:92-94 | after a save the list is the re-fetched active contractors and the form is reset |
| ContractorManager.AddBuilding | src/components/ContractorManager.tsx:109-121 | appends one blank active per-visit building (treating a missing list as empty) and changes no other field |
| ContractorManager.UpdateBuilding | src/components/ContractorManager.tsx:123-127 | replaces the building at the index and no other, keeping the list's length and every other field |
| ContractorManager.SpliceOut | src/components/ContractorManager.tsx:129-133 | splice(index, 1): a position inside the list (a negative index counting from the end) drops that one building, any other position leaves the list as it was |
| ContractorManager.RemoveBuilding | src/components/ContractorManager.tsx:129-133 | the form's buildings become the spliced list and no other field changes |
| ContractorManager.RemoveBuildingSpec | src/components/ContractorManager.tsx:129-133 | removing index i leaves one fewer building: those before i stay put, those after move up by one |
| ContractorManager.AddThenRemove | src/components/ContractorManager.tsx:109-133 | adding a building and then removing the last one gives the original list back |
| ContractorManager.FindByName | src/components/ContractorManager.tsx:208-211 | the match found is the first contractor in the list with the same trimmed, lower-cased name; none found means no contractor's name matches so |
| ContractorManager.UpsertSpec | src/components/ContractorManager.tsx:203-217 | a named entry whose name matches replaces the record with the matched id; otherwise it is appended with a clock id and today's date |
| ContractorManager.UnnamedSkipped | src/components/ContractorManager.tsx:204 | an entry without a name changes nothing |
| ContractorManager.UpsertPresent | src/components/ContractorManager.tsx:203-217 | after a named entry the table has a contractor of that name, and is one longer exactly when no name matched |
| ContractorManager.SnapshotDiffers | src/components/ContractorManager.tsx:203-217 | a file naming one new contractor twice adds it once when every entry re-fetches the list (import), and twice when a copy of the list is fetched once before the loop, as the sync handler does with a backend that returns copies |
| ContractorManager.Upsert | src/components/ContractorManager.tsx:205-216 | one named entry against the shared table: the table becomes its upsert and the store holds the table |
| ContractorManager.ImportFile | src/components/ContractorManager.tsx:193-224 | a file that does not parse as an array changes nothing; otherwise every entry is upserted in order, and the store holds the table once any entry had a name |
| ContractorManager.SyncLocal | src/components/ContractorManager.tsx:236-266 | it syncs exactly when a window exists and local contractors are stored; then every stored entry is upserted and the local entry is removed; otherwise nothing changes |
| WebStorage.SaveKey | src/hooks/useLocalStorage.ts:66-77 | every save key starts with the "payStatement_" prefix |
| WebStorage.Storage.constructor | src/hooks/useLocalStorage.ts:44-101 | storage starts with the given window flag and no entries |
| WebStorage.Storage.SetItem | src/hooks/useLocalStorage.ts:70 | the entry under the key becomes the item; a new key joins the key list at the end, an existing one keeps its place |
| WebStorage.Storage.Save | src/hooks/useLocalStorage.ts:66-77 | without a window nothing is stored and the answer is none; with one the statement is stored under its save key, loading that key gives it back, and every other key loads as before |
| WebStorage.Storage.Load | src/hooks/useLocalStorage.ts:79-91 | a statement is returned exactly when a window exists and the key holds a readable saved statement, and it is the one stored |
| WebStorage.Storage.AllSaved | src/hooks/useLocalStorage.ts:54-64 | without a window nothing is listed; with one exactly the stored keys with the save prefix are |
| WebStorage.Storage.Remove | src/hooks/useLocalStorage.ts:93-101 | deletePayStatement (and clearLocalStorage at 44-52, which does the same): with a window that key and no other goes, so it no longer loads and every other key loads as before; without a window nothing changes |
| WebStorage.PrefixedKeys | src/hooks/useLocalStorage.ts:57-59 | a key is kept exactly when it is in the list and starts with the save prefix |
| WebStorage.Without | src/hooks/useLocalStorage.ts:93-101 | a key remains exactly when it was listed and is not the removed one |
| WebStorage.WithoutSpec | src/hooks/useLocalStorage.ts:93-101 | removing a key keeps the key list free of repeats |
| WebStorage.TimestampHasNoSeparator | src/hooks/useLocalStorage.ts:69 | the timestamp part of a save key holds no underscore, so the name and the time can be told apart |
| PayStatements.LeadingHex | src/lib/data/payStatements.ts:41 | the hexadecimal run parseInt reads after "0x" never runs past the string |
| PayStatements.LeadingDigitsAll | src/lib/data/payStatements.ts:41 | on a string of decimal digits parseInt's digit run is the whole string |
| PayStatements.ParseIntToString | src/lib/data/payStatements.ts:41 | parseInt reads back the decimal rendering of every integer, negative ones included |
| PayStatements.SplitPrefix | src/lib/data/payStatements.ts:38 | splitting a saved key on "_" gives the word "payStatement" first, then the segments of the rest |
| PayStatements.SplitTail | src/lib/data/payStatements.ts:38-39 | a last part without "_" comes out of the split as the last segment |
| PayStatements.KeyParts | src/lib/data/payStatements.ts:38-40 | a saved key splits into "payStatement", the segments of the name, and the timestamp |
| PayStatements.KeyRoundTrip | src/lib/data/payStatements.ts:38-41 | a key written by a save gives back its name exactly, underscores included, and its timestamp, which parseInt reads back as the save time |
| PayStatements.EmptyNameUntitled | src/lib/data/payStatements.ts:54 | a statement saved under the empty name is listed as "Untitled" |
| PayStatements.DivBounds | src/lib/data/payStatements.ts:44-50 | a time within a day's bounds falls on that day |
| PayStatements.DateIsoIsLocalDate | src/lib/data/payStatements.ts:42-50 | the corrected dateISO is the date of the day on whose local clock the save happened |
| PayStatements.DateShift | src/lib/data/payStatements.ts:44-50 | as written, dateISO is the day before the local date in every zone east of UTC, and the local date at UTC and west of it |
| PayStatements.DateShiftExample | src/lib/data/payStatements.ts:44-50 | saved at 1970-01-01T00:00Z one hour east of UTC, the local date is 1 January 1970 but the written dateISO is 31 December 1969 |
| PayStatements.EntryOf | src/lib/data/payStatements.ts:36-59 | a key holding a statement yields an entry exactly when its timestamp parses to a valid time (otherwise toISOString throws); the entry has the key, the loaded statement, the shown name, the written dateISO of the key's time and the id of the contractor found by the payee's name |
| PayStatements.ListedDate | src/lib/data/payStatements.ts:44-50 | a listed entry's dateISO is the day before the local date of its key's time in every zone east of UTC, and the local date at UTC and west of it |
| PayStatements.Collect | src/lib/data/payStatements.ts:35-61 | every collected entry comes from a listed key, carries the statement that key loads, and has the shown name, written dateISO and contractor id derived from them |
| PayStatements.CollectComplete | src/lib/data/payStatements.ts:35-61 | every listed key that loads a statement has an entry |
| PayStatements.InsertBy | src/lib/data/payStatements.ts:62-66 | insertion adds exactly the one entry, keeping all the others |
| PayStatements.InsertBySorted | src/lib/data/payStatements.ts:62-66 | inserting into a newest-first list keeps it newest first |
| PayStatements.TailNewestFirst | src/lib/data/payStatements.ts:62-66 | the rest of a newest-first list is newest first |
| PayStatements.InFront | src/lib/data/payStatements.ts:62-66 | an entry no older than a newest-first list's head may go in front of it |
| PayStatements.Behind | src/lib/data/payStatements.ts:62-66 | the head stays in front when an older entry is inserted into the rest |
| PayStatements.SortBy | src/lib/data/payStatements.ts:62-66 | the sort permutes the entries |
| PayStatements.SortBySorted | src/lib/data/payStatements.ts:62-66 | the sorted list is newest first by key timestamp |
| PayStatements.ListingSpec | src/lib/data/payStatements.ts:32-68 | a listing that succeeds is newest first, holds only saved keys with the statement each loads, holds every saved key that loads, and gives each entry its shown name, written dateISO and contractor id |
| PayStatements.ListAll | src/lib/data/payStatements.ts:32-68 | the forEach pass and the sort compute exactly the listing, with the written dateISO, including its failure on an unreadable time |
| PayStatements.CollectStep | src/lib/data/payStatements.ts:35-61 | one more key of the pass adds its entry, skips a key that does not load, or fails |
| PayStatements.CollectFails | src/lib/data/payStatements.ts:35-61 | once the pass fails, the whole listing fails with that error |
| PayStatements.ByContractor | src/lib/data/payStatements.ts:70-73 | a failing listing fails the same way; otherwise the result is KeepContractor of the listing: exactly the entries with that contractor id, in listing order (KeepContractorAppend) |
| PayStatements.KeepContractor | src/lib/data/payStatements.ts:72 | an entry is kept exactly when it is listed and carries the contractor id; the result is no longer than the input |
| PayStatements.KeepContractorAppend | src/lib/data/payStatements.ts:72 | the filter distributes over concatenation, so kept entries stay in listing order and each appears once per listed occurrence |
| PayStatements.KeepContractorSorted | src/lib/data/payStatements.ts:70-73 | the filter keeps the newest-first order |
| SupabaseRows.CentsExact | src/lib/data/payStatements.ts:153-154 | an amount with at most two decimals is stored as its exact cents and reads back as itself |
| SupabaseRows.SaveItem | src/lib/data/payStatements.ts:175-184 | the unit type is "hour" exactly when the suffix is "hrs" and "visit" otherwise; a zero quantity is written as 1; the description is kept; rate and line total are written as rounded cents |
| SupabaseRows.SaveItems | src/lib/data/payStatements.ts:175 | one item row per summary line, in order |
| SupabaseRows.SaveRows | src/lib/data/payStatements.ts:131-193 | save fails when no contractor row matches the payee, and fails with "Invalid pay period selected" when the period id is not a generated one |
| SupabaseRows.SaveRowsSpec | src/lib/data/payStatements.ts:146-184 | with a matched contractor and a known period, the statement row has the period's dates, a draft status, no adjustments, the subtotal's cents, the total's cents or else the subtotal's, the non-empty notes or else the name; item row i has line i's description, unit type, rate cents, quantity (1 for 0) and total cents |
| SupabaseRows.LoadItem | src/lib/data/payStatements.ts:281-287 | a loaded line has the "hrs" suffix exactly when the unit type is "hour", and no suffix otherwise |
| SupabaseRows.LoadItems | src/lib/data/payStatements.ts:281 | one summary line per item row, in order |
| SupabaseRows.LoadDetails | src/lib/data/payStatements.ts:277-280 | one payment detail per item row, in order |
| SupabaseRows.LoadStatement | src/lib/data/payStatements.ts:195-292 | load gives nothing exactly when the statement row is missing; a loaded statement has an empty pay-period id, one line per item row and the stored total in dollars |
| SupabaseRows.ItemRoundTrip | src/lib/data/payStatements.ts:175-184 | a line with rate and total in whole cents comes back with the same description, rate and total, quantity 1 for 0, and the "hrs" suffix exactly when it had it |
| SupabaseRows.StoredItems | src/lib/data/payStatements.ts:185-189 | the columns of each inserted row as a select reads them, kept in insertion order; the item query sets no order, so only ItemsRoundTripAnyOrder and StatementRoundTripAnyOrder take the rows in any order |
| SupabaseRows.ItemsRoundTrip | src/lib/data/payStatements.ts:175-287 | a summary whose lines are in whole cents, with non-zero quantities and no suffix other than "hrs", survives save and load unchanged when the rows come back in insertion order |
| SupabaseRows.LoadItemsPermuted | src/lib/data/payStatements.ts:280-286 | mapping rows read back in another order gives the same loaded lines, counted with multiplicity |
| SupabaseRows.ItemsRoundTripAnyOrder | src/lib/data/payStatements.ts:175-286 | for item rows read back in any order, such a summary loads as the same lines with the same multiplicities and the same count |
| SupabaseRows.ItemPreserved | src/lib/data/payStatements.ts:175-287 | each such line survives save and load unchanged |
| SupabaseRows.LoadedParts | src/lib/data/payStatements.ts:281-289 | a loaded statement's summary comes from the item rows and its notes are the stored notes when non-empty |
| SupabaseRows.StatementRoundTrip | src/lib/data/payStatements.ts:131-292 | saving and loading keeps such a summary, gives notes equal to the saved notes or else the name, an empty pay-period id, and the total when it is in whole cents and non-zero when the item rows come back in insertion order |
| SupabaseRows.StatementRoundTripAnyOrder | src/lib/data/payStatements.ts:131-292 | for item rows read back in any order: the summary comes back up to order, with the same count, and the period id, notes and total exactly as in StatementRoundTrip |
| SupabaseRows.ZeroQuantitySavedAsOne | src/lib/data/payStatements.ts:181 | a line with quantity 0 is saved, and reads back, as quantity 1 |
| PdfTitle.RunLength | src/components/UploadToDriveButton.tsx:88 | the run matched by one `[^A-Za-z0-9]+` stops at the first letter or digit or at the end |
| PdfTitle.Collapse | src/components/UploadToDriveButton.tsx:88 | the first replace keeps a leading letter or digit and turns a leading run of other characters into "_"; only the empty text gives the empty result |
| PdfTitle.CollapseShape | src/components/UploadToDriveButton.tsx:88 | after the first replace only letters, digits and "_" remain, and no two "_" are adjacent |
| PdfTitle.Alnums | src/components/UploadToDriveButton.tsx:87-88 | the letters and digits of a text are never more than the text |
| PdfTitle.AlnumsAppend | src/components/UploadToDriveButton.tsx:87-88 | the letters and digits of joined texts are those of each, joined |
| PdfTitle.AlnumsNone | src/components/UploadToDriveButton.tsx:88 | a text with no letter or digit has none to keep |
| PdfTitle.CollapseKeepsAlnums | src/components/UploadToDriveButton.tsx:88 | the first replace keeps every letter and digit, in order |
| PdfTitle.LeadingUnderscores | src/components/UploadToDriveButton.tsx:88 | `^_+` matches exactly the leading "_" characters |
| PdfTitle.TrailingUnderscores | src/components/UploadToDriveButton.tsx:88 | `_+$` matches exactly the trailing "_" characters |
| PdfTitle.UnderscoresOnlyNone | src/components/UploadToDriveButton.tsx:88 | a run of "_" holds no letter or digit |
| PdfTitle.SliceShape | src/components/UploadToDriveButton.tsx:88 | trimming keeps the text free of other characters and of doubled "_" |
| PdfTitle.StripKeepsAlnums | src/components/UploadToDriveButton.tsx:88 | trimming the "_" at both ends loses no letter or digit |
| PdfTitle.SafeTitleSpec | src/components/UploadToDriveButton.tsx:87-88 | makeSafeTitle's result holds only letters, digits and single "_" between them, never starts or ends with "_", and keeps every letter and digit of the raw title in order |
| PdfTitle.CollapseClean | src/components/UploadToDriveButton.tsx:88 | the first replace leaves an already safe title as it is |
| PdfTitle.SafeTitleIdempotent | src/components/UploadToDriveButton.tsx:87-88 | sanitising a sanitised title changes nothing |
| PdfTitle.UploadFilename | src/components/UploadToDriveButton.tsx:121-129 | the uploaded file is named by the safe title of "payee - label", the raw period id standing in for a missing label, followed by ".pdf" |
| PdfTitle.CanvasFilename | src/components/PDFGenerator.tsx:206-212 | the saved file is named by the safe title of "payee - label", "Pay Period" standing in for a missing label, followed by ".pdf" |
| PdfTitle.TitlesAgree | src/components/PDFGenerator.tsx:49-54 | for a generated period the upload title and the PDF titles agree; otherwise the upload uses the raw id and the PDFs use "Pay Period" |
| PdfTitle.UnknownLabel | src/components/UploadToDriveButton.tsx:121-123 | the id "pp-999" is no generated period, so it has no label |
| PdfTitle.UnknownPeriodFallback | src/components/UploadToDriveButton.tsx:121-125 | for the unknown id "pp-999" the PDF title is built from "Pay Period" and the upload title from the id itself |
| PdfTitle.UploadContractorName | src/components/UploadToDriveButton.tsx:139 | the contractor name sent with an upload is the payee's name, or "Contractor" when it is empty |
| PdfTitle.PageSize | src/components/UploadToDriveButton.tsx:96-118 | for the letter size the canvas is 816 x 1056 pixels and the image placed at (0, 0) is exactly jsPDF's 612 x 792 point letter page |
| PdfTitle.ImageFillsPage | src/components/UploadToDriveButton.tsx:96-118 | for any page whose size in inches is a whole number of 96-dpi pixels, the placed image measures that size at 72 points per inch |
| Text.Digit | src/utils/payPeriods.ts:9 | a digit value is written as the character of that digit |
| Text.NatToStringSpec | src/utils/payPeriods.ts:37 | `toString` of a whole number is a non-empty run of digits with no leading zero, one digit exactly below 10, whose value is the number |
| Text.NatToStringInjective | src/utils/payPeriods.ts:37 | different whole numbers are written differently |
| Text.Repeat | src/utils/payPeriods.ts:9 | n copies of the character |
| Text.PadStart | src/utils/payPeriods.ts:9 | `padStart` leaves a long enough text alone, and otherwise fills it on the left with the pad character up to the width, keeping the text at the end |
| Text.Lower | src/components/ContractorSelector.tsx:36 | `toLowerCase` on a character maps A-Z to a-z and leaves every other one as it is |
| Text.LowerStr | src/components/ContractorSelector.tsx:36 | `toLowerCase` lowers each character in place |
| Text.TrimStart | src/components/ContractorManager.tsx:210 | the leading white space, and only that, is dropped |
| Text.TrimEnd | src/components/ContractorManager.tsx:210 | the trailing white space, and only that, is dropped |
| Text.TrimEmptyIff | src/components/PayStatementForm.tsx:99 | a text trims to nothing exactly when it is all white space |
| Text.Split | src/lib/data/payStatements.ts:38 | `split` always gives at least one part |
| Text.IndexOf | src/components/PayStatementForm.tsx:76-78 | the position found is the first occurrence of the character |
| Text.SplitAround | src/lib/data/payStatements.ts:38 | splitting around one separator gives the parts of each side, joined |
| Text.IndexOfUnique | src/components/PayStatementForm.tsx:76-78 | the first occurrence is the only position before which the character does not appear |
| Text.JoinSplit | src/lib/data/payStatements.ts:40 | joining the parts of a split by the same separator gives the text back |

## Left out

- **Rendering.** Browser rendering, layout, currency and date display (`toLocaleDateString`, `toLocaleString`), alerts, timers and asynchrony are not modelled. Each handler runs to completion before the next one starts.
- **Storage encoding.** JSON encoding is not modelled. Storage holds a parsed value, or nothing when an entry is missing or unreadable.
- **Shared storage.** The contractor entry and the saved statements share one storage area in the browser. The model keeps them apart.
- **Database queries.** The Supabase adapter, the network and the query calls inside the database client are not modelled. Contractor lookups are inputs to SupabaseRows. The item rows read back are an input sequence to LoadStatement: ItemsRoundTripAnyOrder and StatementRoundTripAnyOrder take any order of them, and the order-sensitive lemmas take insertion order. Database errors and failures inside the import and sync loops are not modelled.
- SupabaseRows.StoredItems: assumes the item rows come back in insertion order. The item query at src/lib/data/payStatements.ts:226-230 has no `.order(...)`, so the database promises no order.
- SupabaseRows.ItemsRoundTrip: gives the summary back in its saved order only under StoredItems' insertion order. ItemsRoundTripAnyOrder states what holds for any order: the same lines, up to order.
- SupabaseRows.StatementRoundTrip: its `back.summary == data.summary` holds only under StoredItems' insertion order. StatementRoundTripAnyOrder states the summary up to order, and the other fields exactly, for any order.
- **Doubles.** Floating-point rounding is not modelled: values are exact decimals and reals. `parseInt` of very large numbers loses no precision here.
- **Time zones.** Daylight-saving time is not modelled: the local offset is one constant parameter. FormatISO writes the year as a plain integer, not as `toISOString`'s signed six-digit years outside 0000-9999.
- PayStatements.DateIsoAsWritten: agrees with `new Date(y, m, d).toISOString().slice(0, 10)` only for local years 1000-9999. Three differences are not modelled, because each needs Date behaviour outside the listing's real range of save times:
  - `toISOString` pads years 0-999 to four digits ("0999-…"), while FormatISO writes "999-…".
  - `new Date(y, m, d)` reads a year 0-99 as 1900 + y: key time -62135596800000 at offset 0 lists as "1901-01-01" in the source and "1-01-01" in the model.
  - A local midnight outside the Date range (±8.64e15 ms) makes `toISOString` throw a RangeError, while the model returns a string.
- PayStatements.EntryOf: inherits the three DateIsoAsWritten differences for save times whose local year lies outside 1000-9999. ListingSpec and ListAll inherit them too.
- **Letter case and accents.** Letter case is ASCII only. `toLowerCase` on other letters and the accent-insensitive `localeCompare` ordering under "bpv1" are not modelled.
- **Percent escapes.** Non-ASCII characters in percent escapes (UTF-8 sequences) are not decoded.
- **Typed amounts.** A typed amount that parses to Infinity is not modelled.
- **Sort comparator.** In the saved-statement sort a NaN timestamp is read as 0. The comparator otherwise behaves as an ordinary newest-first order.
- **Imported entries.** An imported JSON entry that is not a contractor record or lacks fields cannot be expressed, because entries are typed contractor records.
- **Contractor input type.** `Omit<Contractor, "id" | "dateAdded">` is modelled as a full Contractor whose id and date are overwritten.
- **Saved statement date.** The `date` text of a saved statement is not a field of SavedStatement, because it comes from `toLocaleDateString`.
- **PDF output.** PDF rendering itself is not modelled: html2canvas, jsPDF, the print window and the Drive upload request.
- **Backend copies.** Against a backend that returns copies, the sync loop would match every entry against one snapshot. The model runs both loops against the live local table, and SnapshotDiffers shows the difference.
- PayStatementForm.UpdatePaymentDetail: requires an index inside the list. JavaScript would grow the array with holes for a larger index, and the form only passes indices of rendered rows.
- PayStatementForm.SetDetailPayType: requires an index inside the list, for the same reason.
- PayStatementForm.SetDetailQty: requires an index inside the list, for the same reason.
- PayStatementForm.SetDetailAmount: requires an index inside the list, for the same reason.
- StreamlinedPayroll.UpdatePayType: requires an index inside the list. For any other index `updated[index]` is `undefined` and assigning its field throws a TypeError; the screen only passes indices of rendered rows. The same holds for UpdateRate, UpdateHours, UpdateVisitCount and UpdateNotes.
- PayrollGenerator.UpdateVisitCount: requires an index inside the list, for the same reason. The same holds for UpdateHours.
- ContractorManager.UpdateBuilding: requires an index inside the list. JavaScript would grow the building list with holes for a larger index, and the form only passes indices of rendered rows.
- PayStatementView.SortedSummarySpec: the sort is proved to be an ordered permutation, but its stability is not stated.

## Findings

| source | as written | input that shows it | evidently intended | confidence | as-written member | corrected member |
|---|---|---|---|---|---|---|
| src/data/contractorDatabase.ts:263-270 | When storage held no usable list at start-up, the table is the defaults array itself. The reset empties the table first, which empties the defaults, so appending them adds nothing and the empty list is saved. | A first visit: a window and nothing stored, then a reset. | The reset restores the six default contractors. | not executed | ContractorDatabase.FirstVisitReset | ContractorDatabase.ContractorDb.ResetToDefaults |
| src/lib/data/payStatements.ts:44-50 | `dateISO` is the UTC date of local midnight. East of UTC that is the day before the local date. | A statement saved at 1970-01-01T00:00Z in a zone one hour east of UTC gets "1969-12-31". | The local calendar date of the save, "1970-01-01". | not executed | PayStatements.DateShiftExample | PayStatements.DateIsoIsLocalDate |
