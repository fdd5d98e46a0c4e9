/** The saved-statement list of the local client: each stored key that
    holds a statement becomes an entry whose name and date are read back
    from the key, and the entries are ordered newest first. */
module PayStatements {
  import opened Text
  import opened Wrappers
  import opened Statement
  import opened Calendar
  import JsNumber
  import WebStorage
  import ContractorDatabase

  // ---------------------------------------------------------------------
  // parseInt

  /** The length of the run of hexadecimal digits that starts the string. */
  function LeadingHex(s: string): (r: nat)
    ensures r <= |s|
  {
    if s != [] && JsNumber.HexValue(s[0]) < 16 then 1 + LeadingHex(s[1..]) else 0
  }

  /** `parseInt(s)` with no radix: leading white space, an optional sign,
      then the longest run of decimal digits, or of hexadecimal digits after
      `0x`/`0X`; NaN (None) when that run is empty. */
  function ParseInt(s: string): Option<int>
  {
    var t := TrimStart(s);
    var neg := t != [] && t[0] == '-';
    var magnitude := Magnitude(if t != [] && (t[0] == '-' || t[0] == '+') then t[1..] else t);
    if magnitude.None? then None
    else Some(if neg then -(magnitude.value as int) else magnitude.value)
  }

  /** The unsigned part of parseInt: hexadecimal digits after `0x`/`0X`,
      decimal digits otherwise. */
  function Magnitude(u: string): Option<nat>
  {
    if |u| >= 2 && u[0] == '0' && (u[1] == 'x' || u[1] == 'X') then
      var h := LeadingHex(u[2..]);
      if h == 0 then None else Some(JsNumber.RadixValue(u[2..][..h], 16))
    else
      var n := JsNumber.LeadingDigits(u);
      if n == 0 then None else Some(DigitsValue(u[..n]))
  }

  lemma LeadingDigitsAll(s: string)
    requires AllDigits(s)
    ensures JsNumber.LeadingDigits(s) == |s|
  {
  }

  /** parseInt reads back the decimal rendering of any integer. */
  lemma ParseIntToString(i: int)
    ensures ParseInt(IntToString(i)) == Some(i)
  {
    var n: nat := if i < 0 then -i else i;
    NatToStringSpec(n);
    ParseIntRendering(IntToString(i), NatToString(n), i);
  }

  /** A sign-and-digits rendering of an integer reads back as it. */
  lemma ParseIntRendering(str: string, d: string, i: int)
    requires d != [] && AllDigits(d) && DigitsValue(d) == (if i < 0 then -i else i)
    requires str == if i < 0 then "-" + d else d
    ensures ParseInt(str) == Some(i)
  {
    if i < 0 {
      assert str[0] == '-' && str[1..] == d;
      ParseIntNegative(str, d);
    } else {
      ParseIntDigits(d);
    }
  }

  lemma ParseIntDigits(d: string)
    requires d != [] && AllDigits(d)
    ensures ParseInt(d) == Some(DigitsValue(d))
  {
    MagnitudeDigits(d);
    assert !IsWhitespace(d[0]);
    assert TrimStart(d) == d;
  }

  lemma ParseIntNegative(s: string, d: string)
    requires d != [] && AllDigits(d)
    requires s != [] && s[0] == '-' && s[1..] == d
    ensures ParseInt(s) == Some(-(DigitsValue(d) as int))
  {
    NegativeText(s);
    MagnitudeDigits(d);
  }

  /** A text starting with "-" reads as the negated magnitude of the rest. */
  lemma NegativeText(s: string)
    requires s != [] && s[0] == '-'
    ensures ParseInt(s) == if Magnitude(s[1..]).None? then None else Some(-(Magnitude(s[1..]).value as int))
  {
    assert !IsWhitespace(s[0]);
    assert TrimStart(s) == s;
  }

  lemma MagnitudeDigits(d: string)
    requires d != [] && AllDigits(d)
    ensures Magnitude(d) == Some(DigitsValue(d))
  {
    LeadingDigitsAll(d);
    assert d[..|d|] == d;
    assert |d| >= 2 ==> d[1] != 'x' && d[1] != 'X';
  }

  // ---------------------------------------------------------------------
  // Keys

  /** The name: the segments strictly between the first and the last "_",
      joined by "_" (`parts.slice(1, -1).join("_")`). */
  function KeyName(key: string): string
  {
    var parts := Split(key, '_');
    if |parts| >= 2 then Join(parts[1..|parts| - 1], '_') else ""
  }

  /** The last "_"-segment. */
  function KeyTimestamp(key: string): string
  {
    var parts := Split(key, '_');
    parts[|parts| - 1]
  }

  /** The name shown: "Untitled" for an empty one. */
  function DisplayName(key: string): string
  {
    if KeyName(key) == "" then "Untitled" else KeyName(key)
  }

  lemma SplitPrefix(rest: string)
    ensures Split("payStatement" + ['_'] + rest, '_') == ["payStatement"] + Split(rest, '_')
  {
    SplitAround("payStatement", '_', rest);
    PrefixWordUnsplit();
  }

  lemma PrefixWordUnsplit()
    ensures Split("payStatement", '_') == ["payStatement"]
  {
    var w := "payStatement";
    assert forall i | 0 <= i < |w| :: w[i] != '_';
    assert '_' !in w;
  }

  lemma SplitTail(name: string, ts: string)
    requires '_' !in ts
    ensures Split(name + ['_'] + ts, '_') == Split(name, '_') + [ts]
  {
    SplitAround(name, '_', ts);
  }

  /** The segments of a saved key: the prefix word, the name's segments,
      then the timestamp. */
  lemma KeyParts(name: string, nowMs: int)
    ensures Split(WebStorage.SaveKey(name, nowMs), '_') == ["payStatement"] + Split(name, '_') + [IntToString(nowMs)]
  {
    var ts := IntToString(nowMs);
    var rest := name + ['_'] + ts;
    assert WebStorage.SaveKey(name, nowMs) == "payStatement" + ['_'] + rest;
    SplitPrefix(rest);
    WebStorage.TimestampHasNoSeparator(nowMs);
    SplitTail(name, ts);
  }

  /** A key written by a save gives back the name it was saved under, even
      one containing "_", and the save time as its last segment. */
  lemma KeyRoundTrip(name: string, nowMs: int)
    ensures KeyName(WebStorage.SaveKey(name, nowMs)) == name
    ensures KeyTimestamp(WebStorage.SaveKey(name, nowMs)) == IntToString(nowMs)
    ensures ParseInt(KeyTimestamp(WebStorage.SaveKey(name, nowMs))) == Some(nowMs)
  {
    KeyParts(name, nowMs);
    var parts := Split(WebStorage.SaveKey(name, nowMs), '_');
    assert parts[1..|parts| - 1] == Split(name, '_');
    JoinSplit(name, '_');
    ParseIntToString(nowMs);
  }

  /** A key saved under the empty name is shown as "Untitled". */
  lemma EmptyNameUntitled(nowMs: int)
    ensures DisplayName(WebStorage.SaveKey("", nowMs)) == "Untitled"
  {
    KeyRoundTrip("", nowMs);
  }

  /** The comparator's time: `parseInt(key.split("_").pop() || "0")`, with
      NaN read as 0. */
  function KeyTime(key: string): int
  {
    var last := KeyTimestamp(key);
    var t := ParseInt(if last == "" then "0" else last);
    if t.Some? then t.value else 0
  }

  // ---------------------------------------------------------------------
  // Dates

  /** The largest time value a `Date` holds, in milliseconds either way. */
  const MaxTime: int := 8640000000000000

  predicate ValidTime(t: int) { -MaxTime <= t <= MaxTime }

  /** The local day of a UTC time, local time being UTC plus `offsetMs`. */
  function LocalDay(t: int, offsetMs: int): Day
  {
    (t + offsetMs) / MsPerDay
  }

  /** As written: the UTC day of local midnight (`toISOString` of
      `new Date(year, month, date)`). */
  function DateDayAsWritten(t: int, offsetMs: int): Day
  {
    (LocalDay(t, offsetMs) * MsPerDay - offsetMs) / MsPerDay
  }

  function DateIsoAsWritten(t: int, offsetMs: int): string
  {
    FormatISO(DateDayAsWritten(t, offsetMs))
  }

  /** As intended: the local calendar date of the save. */
  function DateIso(t: int, offsetMs: int): string
  {
    FormatISO(LocalDay(t, offsetMs))
  }

  lemma DivBounds(x: int, q: int)
    requires q * MsPerDay <= x < q * MsPerDay + MsPerDay
    ensures x / MsPerDay == q
  {
  }

  /** The intended date is the day on whose local clock the save happened. */
  lemma DateIsoIsLocalDate(t: int, offsetMs: int, d: Day)
    requires d * MsPerDay <= t + offsetMs < d * MsPerDay + MsPerDay
    ensures DateIso(t, offsetMs) == FormatISO(d)
  {
    LocalDayOf(t, offsetMs, d);
  }

  lemma LocalDayOf(t: int, offsetMs: int, d: Day)
    requires d * MsPerDay <= t + offsetMs < d * MsPerDay + MsPerDay
    ensures LocalDay(t, offsetMs) == d
  {
    DivBounds(t + offsetMs, d);
  }

  /** East of UTC (a positive offset under one day) the written date is the
      day before the local date; at UTC or west of it, it is the local date. */
  lemma DateShift(t: int, offsetMs: int)
    ensures 0 < offsetMs < MsPerDay ==> DateDayAsWritten(t, offsetMs) == LocalDay(t, offsetMs) - 1
    ensures -MsPerDay < offsetMs <= 0 ==> DateDayAsWritten(t, offsetMs) == LocalDay(t, offsetMs)
  {
    var l := LocalDay(t, offsetMs);
    if 0 < offsetMs < MsPerDay {
      DivBounds(l * MsPerDay - offsetMs, l - 1);
    } else if -MsPerDay < offsetMs <= 0 {
      DivBounds(l * MsPerDay - offsetMs, l);
    }
  }

  /** Saved at 1970-01-01T00:00Z in a zone one hour east of UTC, it is
      1 January locally, but the written date reads 31 December 1969. */
  lemma DateShiftExample()
    ensures LocalDay(0, 3600000) == 0
    ensures DateDayAsWritten(0, 3600000) == -1
    ensures DateIso(0, 3600000) == FormatISO(0)
    ensures DateIsoAsWritten(0, 3600000) == FormatISO(-1)
  {
    DateShift(0, 3600000);
  }

  // ---------------------------------------------------------------------
  // Listing

  datatype SavedStatement = SavedStatement(
    key: string,
    name: string,
    dateISO: string,
    data: PayStatementData,
    contractorId: Option<string>)

  /** The contractor found by `getContractorByName(paidTo.name)`. */
  function ContractorIdFor(contractors: seq<Contractor>, payee: string): Option<string>
  {
    var c := ContractorDatabase.FirstByName(contractors, payee);
    if c.Some? then Some(c.value.id) else None
  }

  /** What a listed entry derives from its key and statement: the shown
      name, the written date of the key's time and the payee's contractor. */
  predicate ListedFields(s: SavedStatement, contractors: seq<Contractor>, offsetMs: int)
  {
    && s.name == DisplayName(s.key)
    && ParseInt(KeyTimestamp(s.key)).Some?
    && s.dateISO == DateIsoAsWritten(ParseInt(KeyTimestamp(s.key)).value, offsetMs)
    && s.contractorId == ContractorIdFor(contractors, s.data.paidTo.name)
  }

  /** The entry for one key holding a statement; an unreadable time makes
      `toISOString` throw. */
  function EntryOf(key: string, data: PayStatementData, contractors: seq<Contractor>, offsetMs: int): (r: Result<SavedStatement>)
    ensures r.Success? <==> ParseInt(KeyTimestamp(key)).Some? && ValidTime(ParseInt(KeyTimestamp(key)).value)
    ensures r.Success? ==> r.value.key == key && r.value.data == data && r.value.name == DisplayName(key)
    ensures r.Success? ==> r.value.dateISO == DateIsoAsWritten(ParseInt(KeyTimestamp(key)).value, offsetMs)
                           && r.value.contractorId == ContractorIdFor(contractors, data.paidTo.name)
  {
    var ts := ParseInt(KeyTimestamp(key));
    if ts.None? || !ValidTime(ts.value) then Failure("Invalid time value")
    else Success(SavedStatement(key, DisplayName(key), DateIsoAsWritten(ts.value, offsetMs), data,
                                ContractorIdFor(contractors, data.paidTo.name)))
  }

  /** East of UTC a listed entry shows the day before the local date of its
      key's time; at UTC or west of it, the local date. */
  lemma ListedDate(s: SavedStatement, contractors: seq<Contractor>, offsetMs: int)
    requires ListedFields(s, contractors, offsetMs)
    ensures var t := ParseInt(KeyTimestamp(s.key)).value;
            && (0 < offsetMs < MsPerDay ==> s.dateISO == FormatISO(LocalDay(t, offsetMs) - 1))
            && (-MsPerDay < offsetMs <= 0 ==> s.dateISO == DateIso(t, offsetMs))
  {
    DateShift(ParseInt(KeyTimestamp(s.key)).value, offsetMs);
  }

  /** The `forEach` over the saved keys, in key order. */
  function Collect(ws: WebStorage.Storage, keys: seq<string>, contractors: seq<Contractor>, offsetMs: int): (r: Result<seq<SavedStatement>>)
    reads ws
    ensures r.Success? ==> forall s :: s in r.value ==>
              s.key in keys && ws.Load(s.key) == Some(s.data) && ListedFields(s, contractors, offsetMs)
    decreases |keys|
  {
    if keys == [] then Success([])
    else
      var n := |keys| - 1;
      var prev := Collect(ws, keys[..n], contractors, offsetMs);
      var d := ws.Load(keys[n]);
      if prev.Failure? || d.None? then prev
      else
        var e := EntryOf(keys[n], d.value, contractors, offsetMs);
        if e.Failure? then Failure(e.error)
        else
          assert ListedFields(e.value, contractors, offsetMs);
          Success(prev.value + [e.value])
  }

  /** Every key holding a statement is listed, and no other. */
  lemma {:induction false} CollectComplete(ws: WebStorage.Storage, keys: seq<string>, contractors: seq<Contractor>, offsetMs: int)
    requires Collect(ws, keys, contractors, offsetMs).Success?
    ensures forall k :: k in keys && ws.Load(k).Some? ==>
              exists s :: s in Collect(ws, keys, contractors, offsetMs).value && s.key == k
    decreases |keys|
  {
    if keys != [] {
      var n := |keys| - 1;
      CollectLast(ws, keys, contractors, offsetMs);
      CollectComplete(ws, keys[..n], contractors, offsetMs);
      var prev := Collect(ws, keys[..n], contractors, offsetMs).value;
      var r := Collect(ws, keys, contractors, offsetMs).value;
      forall k | k in keys && ws.Load(k).Some? ensures exists s :: s in r && s.key == k {
        if k != keys[n] {
          InPrefix(keys, k);
          var s :| s in prev && s.key == k;
          assert s in r;
        }
      }
    }
  }

  /** A successful pass over the keys extends the pass over all but the
      last, with the last key's entry when it loads. */
  lemma CollectLast(ws: WebStorage.Storage, keys: seq<string>, contractors: seq<Contractor>, offsetMs: int)
    requires keys != [] && Collect(ws, keys, contractors, offsetMs).Success?
    ensures Collect(ws, keys[..|keys| - 1], contractors, offsetMs).Success?
    ensures forall s :: s in Collect(ws, keys[..|keys| - 1], contractors, offsetMs).value ==>
              s in Collect(ws, keys, contractors, offsetMs).value
    ensures ws.Load(keys[|keys| - 1]).Some? ==>
              exists s :: s in Collect(ws, keys, contractors, offsetMs).value && s.key == keys[|keys| - 1]
  {
    var n := |keys| - 1;
    var prev := Collect(ws, keys[..n], contractors, offsetMs);
    var d := ws.Load(keys[n]);
    var r := Collect(ws, keys, contractors, offsetMs).value;
    assert prev.Success?;
    if d.Some? {
      var e := EntryOf(keys[n], d.value, contractors, offsetMs);
      assert e.Success?;
      assert r == prev.value + [e.value];
      assert r[|r| - 1] == e.value;
    } else {
      assert r == prev.value;
    }
  }

  lemma InPrefix(keys: seq<string>, k: string)
    requires k in keys && k != keys[|keys| - 1]
    ensures k in keys[..|keys| - 1]
  {
    var m :| 0 <= m < |keys| && keys[m] == k;
    assert keys[..|keys| - 1][m] == k;
  }

  /** Ordered by a time, newest first. */
  predicate NewestFirstBy(s: seq<SavedStatement>, time: SavedStatement -> int)
  {
    forall i, j :: 0 <= i < j < |s| ==> time(s[i]) >= time(s[j])
  }

  function EntryTime(s: SavedStatement): int
  {
    KeyTime(s.key)
  }

  predicate NewestFirst(s: seq<SavedStatement>)
  {
    NewestFirstBy(s, EntryTime)
  }

  /** Places x before the first entry that is not newer than it. */
  function InsertBy(x: SavedStatement, s: seq<SavedStatement>, time: SavedStatement -> int): (r: seq<SavedStatement>)
    ensures multiset(r) == multiset(s) + multiset{x}
    ensures |r| == |s| + 1
  {
    if s == [] then [x]
    else if time(x) >= time(s[0]) then [x] + s
    else
      assert s == [s[0]] + s[1..];
      [s[0]] + InsertBy(x, s[1..], time)
  }

  lemma {:induction false} InsertBySorted(x: SavedStatement, s: seq<SavedStatement>, time: SavedStatement -> int)
    requires NewestFirstBy(s, time)
    ensures NewestFirstBy(InsertBy(x, s, time), time)
  {
    if s == [] {
    } else if time(x) >= time(s[0]) {
      InFront(x, s, time);
    } else {
      TailNewestFirst(s, time);
      InsertBySorted(x, s[1..], time);
      Behind(x, s, InsertBy(x, s[1..], time), time);
    }
  }

  lemma TailNewestFirst(s: seq<SavedStatement>, time: SavedStatement -> int)
    requires s != [] && NewestFirstBy(s, time)
    ensures NewestFirstBy(s[1..], time)
  {
    assert forall i :: 0 <= i < |s[1..]| ==> s[1..][i] == s[i + 1];
  }

  /** x goes in front of a list whose head is not newer than it. */
  lemma InFront(x: SavedStatement, s: seq<SavedStatement>, time: SavedStatement -> int)
    requires s != [] && NewestFirstBy(s, time) && time(x) >= time(s[0])
    ensures NewestFirstBy([x] + s, time)
  {
    var r := [x] + s;
    forall i, j | 0 <= i < j < |r| ensures time(r[i]) >= time(r[j]) {
      assert r[j] == s[j - 1];
      if i > 0 {
        assert r[i] == s[i - 1];
      }
    }
  }

  /** The head of the list stays in front of x inserted into its tail. */
  lemma Behind(x: SavedStatement, s: seq<SavedStatement>, rest: seq<SavedStatement>, time: SavedStatement -> int)
    requires s != [] && NewestFirstBy(s, time) && time(x) < time(s[0])
    requires NewestFirstBy(rest, time) && multiset(rest) == multiset(s[1..]) + multiset{x}
    ensures NewestFirstBy([s[0]] + rest, time)
  {
    forall y | y in rest ensures time(s[0]) >= time(y) {
      assert y in multiset(rest);
      if y != x {
        assert y in multiset(s[1..]);
        var j :| 0 <= j < |s[1..]| && s[1..][j] == y;
        assert s[j + 1] == y;
      }
    }
    var r := [s[0]] + rest;
    forall i, j | 0 <= i < j < |r| ensures time(r[i]) >= time(r[j]) {
      assert r[j] == rest[j - 1];
      assert rest[j - 1] in rest;
      if i > 0 {
        assert r[i] == rest[i - 1];
      }
    }
  }

  /** A stable insertion sort, newest first. */
  function SortBy(s: seq<SavedStatement>, time: SavedStatement -> int): (r: seq<SavedStatement>)
    ensures multiset(r) == multiset(s) && |r| == |s|
  {
    if s == [] then []
    else
      assert s == [s[0]] + s[1..];
      InsertBy(s[0], SortBy(s[1..], time), time)
  }

  lemma {:induction false} SortBySorted(s: seq<SavedStatement>, time: SavedStatement -> int)
    ensures NewestFirstBy(SortBy(s, time), time)
  {
    if s != [] {
      SortBySorted(s[1..], time);
      InsertBySorted(s[0], SortBy(s[1..], time), time);
    }
  }

  /** `statements.sort((a, b) => bTime - aTime)`. */
  function SortByTime(s: seq<SavedStatement>): seq<SavedStatement>
  {
    SortBy(s, EntryTime)
  }

  /** `listAll` of the local client. */
  function Listing(ws: WebStorage.Storage, contractors: seq<Contractor>, offsetMs: int): Result<seq<SavedStatement>>
    reads ws
  {
    var c := Collect(ws, ws.AllSaved(), contractors, offsetMs);
    if c.Success? then Success(SortByTime(c.value)) else c
  }

  /** A listing that succeeds holds exactly the saved keys that load, each
      with its loaded statement, newest first. */
  lemma ListingSpec(ws: WebStorage.Storage, contractors: seq<Contractor>, offsetMs: int)
    requires Listing(ws, contractors, offsetMs).Success?
    ensures var r := Listing(ws, contractors, offsetMs).value;
            && NewestFirst(r)
            && (forall s :: s in r ==> s.key in ws.AllSaved() && ws.Load(s.key) == Some(s.data)
                                       && ListedFields(s, contractors, offsetMs))
            && (forall k :: k in ws.AllSaved() && ws.Load(k).Some? ==> exists s :: s in r && s.key == k)
  {
    var c := Collect(ws, ws.AllSaved(), contractors, offsetMs);
    SortBySorted(c.value, EntryTime);
    CollectComplete(ws, ws.AllSaved(), contractors, offsetMs);
    var r := SortByTime(c.value);
    forall s | s in r
      ensures s.key in ws.AllSaved() && ws.Load(s.key) == Some(s.data) && ListedFields(s, contractors, offsetMs)
    {
      assert s in multiset(r);
    }
    forall k | k in ws.AllSaved() && ws.Load(k).Some? ensures exists s :: s in r && s.key == k {
      var s :| s in c.value && s.key == k;
      assert s in multiset(c.value);
      assert s in r;
    }
  }

  /** The loop of `listAll`: one pass over the saved keys, then the sort. */
  method ListAll(ws: WebStorage.Storage, contractors: seq<Contractor>, offsetMs: int) returns (r: Result<seq<SavedStatement>>)
    ensures r == Listing(ws, contractors, offsetMs)
  {
    var keys := ws.AllSaved();
    var statements: seq<SavedStatement> := [];
    var i := 0;
    while i < |keys|
      invariant 0 <= i <= |keys|
      invariant Collect(ws, keys[..i], contractors, offsetMs) == Success(statements)
    {
      CollectStep(ws, keys, i, contractors, offsetMs);
      var data := ws.Load(keys[i]);
      if data.Some? {
        var e := EntryOf(keys[i], data.value, contractors, offsetMs);
        if e.Failure? {
          CollectFails(ws, keys, i + 1, contractors, offsetMs);
          assert keys[..|keys|] == keys;
          return Failure(e.error);
        }
        statements := statements + [e.value];
      }
      i := i + 1;
    }
    assert keys[..|keys|] == keys;
    return Success(SortByTime(statements));
  }

  /** One more key of the pass. */
  lemma CollectStep(ws: WebStorage.Storage, keys: seq<string>, i: nat, contractors: seq<Contractor>, offsetMs: int)
    requires i < |keys|
    ensures var prev := Collect(ws, keys[..i], contractors, offsetMs);
            var d := ws.Load(keys[i]);
            Collect(ws, keys[..i + 1], contractors, offsetMs) ==
              if prev.Failure? || d.None? then prev
              else
                var e := EntryOf(keys[i], d.value, contractors, offsetMs);
                if e.Failure? then Failure(e.error) else Success(prev.value + [e.value])
  {
    assert keys[..i + 1][..i] == keys[..i];
    assert keys[..i + 1][i] == keys[i];
  }

  /** Once a prefix of the keys fails, the whole pass fails with that error. */
  lemma {:induction false} CollectFails(ws: WebStorage.Storage, keys: seq<string>, i: nat, contractors: seq<Contractor>, offsetMs: int)
    requires i <= |keys| && Collect(ws, keys[..i], contractors, offsetMs).Failure?
    ensures Collect(ws, keys, contractors, offsetMs) == Collect(ws, keys[..i], contractors, offsetMs)
    decreases |keys| - i
  {
    if i < |keys| {
      assert keys[..i + 1][..i] == keys[..i];
      CollectFails(ws, keys, i + 1, contractors, offsetMs);
    } else {
      assert keys[..i] == keys;
    }
  }

  /** `listByContractorId`: the listing kept to one contractor's entries,
      in listing order. */
  function ByContractor(r: Result<seq<SavedStatement>>, contractorId: string): (f: Result<seq<SavedStatement>>)
    ensures r.Failure? ==> f == r
    ensures r.Success? ==> f.Success? && forall s :: s in f.value <==> s in r.value && s.contractorId == Some(contractorId)
    ensures r.Success? ==> f.value == KeepContractor(r.value, contractorId)
  {
    if r.Failure? then r else Success(KeepContractor(r.value, contractorId))
  }

  /** The entries of one contractor, in the order given. */
  function KeepContractor(s: seq<SavedStatement>, contractorId: string): (r: seq<SavedStatement>)
    ensures |r| <= |s|
    ensures forall x :: x in r <==> x in s && x.contractorId == Some(contractorId)
  {
    if s == [] then []
    else if s[0].contractorId == Some(contractorId) then [s[0]] + KeepContractor(s[1..], contractorId)
    else KeepContractor(s[1..], contractorId)
  }

  /** The filter distributes over concatenation, so the kept entries stay in
      listing order and appear once per listed occurrence. */
  lemma {:induction false} KeepContractorAppend(a: seq<SavedStatement>, b: seq<SavedStatement>, contractorId: string)
    ensures KeepContractor(a + b, contractorId) == KeepContractor(a, contractorId) + KeepContractor(b, contractorId)
    decreases |a|
  {
    if a == [] {
      assert a + b == b;
    } else {
      assert (a + b)[0] == a[0];
      assert (a + b)[1..] == a[1..] + b;
      KeepContractorAppend(a[1..], b, contractorId);
    }
  }

  /** The filter keeps the newest-first order. */
  lemma {:induction false} KeepContractorSorted(s: seq<SavedStatement>, contractorId: string, time: SavedStatement -> int)
    requires NewestFirstBy(s, time)
    ensures NewestFirstBy(KeepContractor(s, contractorId), time)
  {
    if s != [] {
      TailNewestFirst(s, time);
      KeepContractorSorted(s[1..], contractorId, time);
      var rest := KeepContractor(s[1..], contractorId);
      if s[0].contractorId == Some(contractorId) {
        forall y | y in rest ensures time(s[0]) >= time(y) {
          HeadNewest(s, y, time);
        }
        Cons(s[0], rest, time);
      }
    }
  }

  /** The head of a newest-first list is not older than anything after it. */
  lemma HeadNewest(s: seq<SavedStatement>, y: SavedStatement, time: SavedStatement -> int)
    requires s != [] && NewestFirstBy(s, time) && y in s[1..]
    ensures time(s[0]) >= time(y)
  {
    var m :| 0 <= m < |s[1..]| && s[1..][m] == y;
    assert s[m + 1] == y;
  }

  /** An entry not older than anything in a newest-first list can go in front. */
  lemma Cons(x: SavedStatement, rest: seq<SavedStatement>, time: SavedStatement -> int)
    requires NewestFirstBy(rest, time) && forall y :: y in rest ==> time(x) >= time(y)
    ensures NewestFirstBy([x] + rest, time)
  {
    var r := [x] + rest;
    forall i, j | 0 <= i < j < |r| ensures time(r[i]) >= time(r[j]) {
      assert r[j] == rest[j - 1] && rest[j - 1] in rest;
      if i > 0 {
        assert r[i] == rest[i - 1];
      }
    }
  }
}
