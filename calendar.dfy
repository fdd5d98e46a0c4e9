/** Civil dates as day numbers (days since 1970-01-01 in the proleptic
    Gregorian calendar) and local instants as milliseconds, the units in
    which JavaScript's `Date` compares times. */
module Calendar {
  import opened Text

  /** A calendar date, counted in days from 1970-01-01. */
  type Day = int

  /** A local time value in milliseconds from 1970-01-01T00:00:00 local time. */
  type Instant = int

  const MsPerDay: int := 86400000

  /** `new Date("<day>T00:00:00")`. */
  function StartOfDay(d: Day): Instant { d * MsPerDay }

  /** `new Date("<day>T23:59:59")`: one second before the next midnight. */
  function EndOfDay(d: Day): Instant { d * MsPerDay + MsPerDay - 1000 }

  /** A day's 23:59:59 falls inside that day, and midnights are ordered as
      their days are. */
  lemma DayInstants(d: Day, e: Day)
    ensures StartOfDay(d) < EndOfDay(d) < StartOfDay(d + 1)
    ensures d < e <==> StartOfDay(d) < StartOfDay(e)
    ensures d <= e <==> EndOfDay(d) < StartOfDay(e + 1)
  {
  }

  datatype Civil = Civil(year: int, month: int, day: int)

  predicate IsLeapYear(y: int)
  {
    y % 4 == 0 && (y % 100 != 0 || y % 400 == 0)
  }

  function DaysInMonth(y: int, m: int): int
  {
    if m == 2 then (if IsLeapYear(y) then 29 else 28)
    else if m == 4 || m == 6 || m == 9 || m == 11 then 30
    else 31
  }

  /** A date of the proleptic Gregorian calendar. */
  predicate ValidCivil(c: Civil)
  {
    1 <= c.month <= 12 && 1 <= c.day <= DaysInMonth(c.year, c.month)
  }

  /** The day number of a civil date (month 1..12, day 1..31). */
  function DaysFromCivil(c: Civil): Day
  {
    var y := if c.month <= 2 then c.year - 1 else c.year;
    var era := y / 400;
    var yoe := y - era * 400;
    var mp := if c.month > 2 then c.month - 3 else c.month + 9;
    var doy := (153 * mp + 2) / 5 + c.day - 1;
    var doe := yoe * 365 + yoe / 4 - yoe / 100 + doy;
    era * 146097 + doe - 719468
  }

  /** The civil date of a day number: whole eras of 146097 days are split
      off, then the day of the era is converted. */
  function CivilFromDays(z: Day): Civil
  {
    var z' := z + 719468;
    var era := z' / 146097;
    CivilOfEraDay(era, z' - era * 146097)
  }

  /** The steps of CivilFromDays from the day `doe` of era `era` on. */
  function CivilOfEraDay(era: int, doe: int): Civil
  {
    var yoe := (doe - doe / 1460 + doe / 36524 - doe / 146096) / 365;
    var doy := doe - (365 * yoe + yoe / 4 - yoe / 100);
    var mp := (5 * doy + 2) / 153;
    var d := doy - (153 * mp + 2) / 5 + 1;
    var m := if mp < 10 then mp + 3 else mp - 9;
    Civil(if m <= 2 then yoe + era * 400 + 1 else yoe + era * 400, m, d)
  }

  // ---------------------------------------------------------------------
  // The two conversions are inverse to each other

  /** The length of month `mp` of a year counted from March (0 is March,
      11 is February). */
  function ShiftedMonthLength(mp: int, leap: bool): int
  {
    if mp == 11 then (if leap then 29 else 28)
    else if mp == 1 || mp == 3 || mp == 6 || mp == 8 then 30
    else 31
  }

  /** Years of an era split as 100c + 4q + r: the day of the era of day
      `doy` of that year gives the year back. */
  lemma YearOfEraSplit(c: int, q: int, r: int, doy: int, doe: int)
    requires 0 <= c <= 3 && 0 <= q <= 24 && 0 <= r <= 3 && 0 <= doy <= 365
    requires doy == 365 ==> r == 3 && (q < 24 || c == 3)
    requires doe == 36524 * c + 1461 * q + 365 * r + doy
    ensures 0 <= doe < 146097
    ensures (doe - doe / 1460 + doe / 36524 - doe / 146096) / 365 == 100 * c + 4 * q + r
  {
    if doe == 146096 {
      assert doe - doe / 1460 + doe / 36524 - doe / 146096 == 145999;
    } else {
      assert doe / 146096 == 0;
      assert doe / 36524 == c;
      var t := (24 * c + q + 365 * r + doy) / 1460;
      assert 0 <= t <= 1;
      assert doe / 1460 == 25 * c + q + t;
    }
  }

  /** Day `doy` of year `yoe` of an era: its day of the era, and the year
      recovered from that. Day 365 exists only in a year whose February
      has 29 days. */
  lemma YearOfEra(yoe: int, doy: int, doe: int)
    requires 0 <= yoe < 400 && 0 <= doy <= 365
    requires doy == 365 ==> yoe % 4 == 3 && ((yoe % 100) / 4 < 24 || yoe / 100 == 3)
    requires doe == 365 * yoe + yoe / 4 - yoe / 100 + doy
    ensures 0 <= doe < 146097
    ensures (doe - doe / 1460 + doe / 36524 - doe / 146096) / 365 == yoe
  {
    var c, q, r := yoe / 100, (yoe % 100) / 4, yoe % 4;
    assert yoe == 100 * c + 4 * q + r;
    assert yoe / 4 == 25 * c + q;
    YearOfEraSplit(c, q, r, doy, doe);
  }

  /** Day `d` of month `mp` is day `doy` of the March-based year, and the
      month is recovered from `doy`. */
  lemma MonthOfYear(mp: int, d: int, leap: bool)
    requires 0 <= mp <= 11 && 1 <= d <= ShiftedMonthLength(mp, leap)
    ensures var doy := (153 * mp + 2) / 5 + d - 1;
            && 0 <= doy <= (if leap then 365 else 364)
            && (5 * doy + 2) / 153 == mp
  {
  }

  /** Every day of the March-based year lies in one of its twelve months. */
  lemma DayOfYear(doy: int)
    requires 0 <= doy <= 365
    ensures var mp := (5 * doy + 2) / 153;
            && 0 <= mp <= 11
            && 1 <= doy - (153 * mp + 2) / 5 + 1 <= ShiftedMonthLength(mp, doy == 365)
            && (doy == 365 ==> mp == 11)
  {
  }

  /** In the March-based year `yoe` of an era the February that ends it
      belongs to the calendar year after, whose leap status depends only on
      `yoe`. */
  lemma LeapOfEra(era: int, yoe: int)
    requires 0 <= yoe < 400
    ensures IsLeapYear(era * 400 + yoe + 1) <==>
              (yoe % 4 == 3 && ((yoe % 100) / 4 < 24 || yoe / 100 == 3))
  {
    ShiftBy4(era * 100, yoe + 1);
    ShiftBy100(era * 4, yoe + 1);
    ShiftBy400(era, yoe + 1);
    assert IsLeapYear(era * 400 + yoe + 1) == IsLeapYear(yoe + 1);
    LeapInEra(yoe);
  }

  /** The year after year `yoe` of an era is a leap year exactly when `yoe`
      ends a four-year cycle, other than a century's last, or is the era's
      last year. */
  lemma LeapInEra(yoe: int)
    requires 0 <= yoe < 400
    ensures IsLeapYear(yoe + 1) <==> (yoe % 4 == 3 && ((yoe % 100) / 4 < 24 || yoe / 100 == 3))
  {
    var c, r := yoe / 100, yoe % 100;
    assert yoe == 100 * c + r && 0 <= c < 4 && 0 <= r < 100;
    assert yoe % 4 == r % 4;
    assert (yoe + 1) % 4 == 0 <==> r % 4 == 3;
    assert (yoe + 1) % 100 == 0 <==> r == 99;
    assert (yoe + 1) % 400 == 0 <==> yoe == 399;
    assert r % 4 == 3 ==> (r / 4 < 24 <==> r != 99);
  }

  /** Adding a multiple of 4, 100 or 400 leaves the remainder by it
      unchanged. */
  lemma ShiftBy4(k: int, x: int)
    ensures (4 * k + x) % 4 == x % 4
  {
  }

  lemma ShiftBy100(k: int, x: int)
    ensures (100 * k + x) % 100 == x % 100
  {
  }

  lemma ShiftBy400(k: int, x: int)
    ensures (400 * k + x) % 400 == x % 400
  {
  }

  /** A day number split into whole eras and a day of the era divides back
      into them. */
  lemma EraOf(era: int, doe: int)
    requires 0 <= doe < 146097
    ensures (era * 146097 + doe) / 146097 == era
  {
  }

  lemma CivilFromEraDay(z: Day, era: int, doe: int)
    requires 0 <= doe < 146097 && z + 719468 == era * 146097 + doe
    ensures CivilFromDays(z) == CivilOfEraDay(era, doe)
  {
    EraOf(era, doe);
  }

  /** The date of day `doy` of year `yoe` of an era. */
  lemma EraDayDate(era: int, yoe: int, doy: int, doe: int)
    requires 0 <= yoe < 400 && 0 <= doy <= 365
    requires doy == 365 ==> yoe % 4 == 3 && ((yoe % 100) / 4 < 24 || yoe / 100 == 3)
    requires doe == 365 * yoe + yoe / 4 - yoe / 100 + doy
    ensures var mp := (5 * doy + 2) / 153;
            var m := if mp < 10 then mp + 3 else mp - 9;
            CivilOfEraDay(era, doe) ==
              Civil(if m <= 2 then yoe + era * 400 + 1 else yoe + era * 400, m, doy - (153 * mp + 2) / 5 + 1)
  {
    YearOfEra(yoe, doy, doe);
  }

  /** Converting a valid date to its day number and back gives the date. */
  lemma CivilRoundTrip(c: Civil)
    requires ValidCivil(c)
    ensures CivilFromDays(DaysFromCivil(c)) == c
  {
    var era, yoe, doy, doe := CivilEraParts(c);
    YearOfEra(yoe, doy, doe);
    CivilFromEraDay(DaysFromCivil(c), era, doe);
    EraDayDate(era, yoe, doy, doe);
  }

  /** The era, year of the era, day of the year and day of the era that
      DaysFromCivil computes for a valid date, and the date they name. */
  lemma CivilEraParts(c: Civil) returns (era: int, yoe: int, doy: int, doe: int)
    requires ValidCivil(c)
    ensures 0 <= yoe < 400 && 0 <= doy <= 365
    ensures doy == 365 ==> yoe % 4 == 3 && ((yoe % 100) / 4 < 24 || yoe / 100 == 3)
    ensures doe == 365 * yoe + yoe / 4 - yoe / 100 + doy
    ensures DaysFromCivil(c) + 719468 == era * 146097 + doe
    ensures var mp := (5 * doy + 2) / 153;
            var m := if mp < 10 then mp + 3 else mp - 9;
            && m == c.month
            && doy - (153 * mp + 2) / 5 + 1 == c.day
            && (if m <= 2 then yoe + era * 400 + 1 else yoe + era * 400) == c.year
  {
    var y := if c.month <= 2 then c.year - 1 else c.year;
    era := y / 400;
    yoe := y - era * 400;
    var mp := if c.month > 2 then c.month - 3 else c.month + 9;
    assert c.month == 2 ==> c.year == era * 400 + yoe + 1;
    MonthOfYear(mp, c.day, IsLeapYear(era * 400 + yoe + 1));
    doy := (153 * mp + 2) / 5 + c.day - 1;
    LeapOfEra(era, yoe);
    doe := yoe * 365 + yoe / 4 - yoe / 100 + doy;
    assert (5 * doy + 2) / 153 == mp;
  }

  /** Every day of an era is day `doy` of some year `yoe` of it. */
  lemma SplitEraDay(doe: int) returns (yoe: int, doy: int)
    requires 0 <= doe < 146097
    ensures 0 <= yoe < 400 && 0 <= doy <= 365
    ensures doy == 365 ==> yoe % 4 == 3 && ((yoe % 100) / 4 < 24 || yoe / 100 == 3)
    ensures doe == 365 * yoe + yoe / 4 - yoe / 100 + doy
  {
    var c := if doe / 36524 > 3 then 3 else doe / 36524;
    var rest := doe - 36524 * c;
    var q := rest / 1461;
    var rest' := rest - 1461 * q;
    var r := if rest' / 365 > 3 then 3 else rest' / 365;
    doy := rest' - 365 * r;
    yoe := 100 * c + 4 * q + r;
    assert yoe / 100 == c && (yoe % 100) / 4 == q && yoe % 4 == r;
  }

  /** The day number of day `d` of month `mp` of year `yoe` of an era. */
  lemma DaysOfEraDate(era: int, yoe: int, mp: int, d: int)
    requires 0 <= yoe < 400 && 0 <= mp <= 11
    ensures var m := if mp < 10 then mp + 3 else mp - 9;
            DaysFromCivil(Civil(if m <= 2 then yoe + era * 400 + 1 else yoe + era * 400, m, d)) ==
              era * 146097 + 365 * yoe + yoe / 4 - yoe / 100 + (153 * mp + 2) / 5 + d - 1 - 719468
  {
    assert (yoe + era * 400) / 400 == era;
  }

  /** Converting a day number to its date and back gives the day number,
      and the date is a valid one. */
  lemma DaysRoundTrip(z: Day)
    ensures ValidCivil(CivilFromDays(z))
    ensures DaysFromCivil(CivilFromDays(z)) == z
  {
    var era := (z + 719468) / 146097;
    var doe := z + 719468 - era * 146097;
    var yoe, doy := SplitEraDay(doe);
    CivilFromEraDay(z, era, doe);
    EraDayDate(era, yoe, doy, doe);
    DayOfYear(doy);
    LeapOfEra(era, yoe);
    var mp := (5 * doy + 2) / 153;
    var d := doy - (153 * mp + 2) / 5 + 1;
    var m := if mp < 10 then mp + 3 else mp - 9;
    var year := if m <= 2 then yoe + era * 400 + 1 else yoe + era * 400;
    assert CivilFromDays(z) == Civil(year, m, d);
    assert doy == 365 ==> m == 2 && year == era * 400 + yoe + 1 && IsLeapYear(year);
    assert d <= DaysInMonth(year, m);
    DaysOfEraDate(era, yoe, mp, d);
  }

  /** Distinct valid dates have distinct day numbers. */
  lemma DaysFromCivilInjective(a: Civil, b: Civil)
    requires ValidCivil(a) && ValidCivil(b) && DaysFromCivil(a) == DaysFromCivil(b)
    ensures a == b
  {
    CivilRoundTrip(a);
    CivilRoundTrip(b);
  }

  /** `n.toString().padStart(2, "0")`. */
  function Pad2(n: int): string { PadStart(IntToString(n), 2, '0') }

  /** `${getFullYear()}-${pad2(getMonth() + 1)}-${pad2(getDate())}`. */
  function FormatISO(d: Day): string
  {
    var c := CivilFromDays(d);
    IntToString(c.year) + "-" + Pad2(c.month) + "-" + Pad2(c.day)
  }

  /** Below 100, the two-digit form holds the tens and the units digit. */
  lemma Pad2Digits(n: int)
    requires 0 <= n < 100
    ensures Pad2(n) == [Digit(n / 10), Digit(n % 10)]
  {
    if n >= 10 {
      assert NatToString(n) == NatToString(n / 10) + [Digit(n % 10)];
    }
  }

  lemma Pad2Injective(m: int, n: int)
    requires 0 <= m < 100 && 0 <= n < 100 && Pad2(m) == Pad2(n)
    ensures m == n
  {
    Pad2Digits(m);
    Pad2Digits(n);
    assert Digit(m / 10) == Digit(n / 10) && Digit(m % 10) == Digit(n % 10);
  }

  /** Two concatenations with equally long tails have equal heads and
      equal tails. */
  lemma AppendCancel(a: string, t: string, a': string, t': string)
    requires a + t == a' + t' && |t| == |t'|
    ensures a == a' && t == t'
  {
    assert a == (a + t)[..|a|];
    assert a' == (a' + t')[..|a'|];
    assert t == (a + t)[|a|..];
    assert t' == (a' + t')[|a'|..];
  }

  /** `YYYY-MM-DD` text with one- or two-digit month and day reads back
      as its three numbers. */
  lemma IsoTextInjective(y: int, m: int, d: int, y': int, m': int, d': int)
    requires 0 <= m < 100 && 0 <= d < 100 && 0 <= m' < 100 && 0 <= d' < 100
    requires IntToString(y) + "-" + Pad2(m) + "-" + Pad2(d) == IntToString(y') + "-" + Pad2(m') + "-" + Pad2(d')
    ensures y == y' && m == m' && d == d'
  {
    Pad2Digits(m);
    Pad2Digits(d);
    Pad2Digits(m');
    Pad2Digits(d');
    AppendCancel(IntToString(y) + "-" + Pad2(m) + "-", Pad2(d), IntToString(y') + "-" + Pad2(m') + "-", Pad2(d'));
    AppendCancel(IntToString(y) + "-" + Pad2(m), "-", IntToString(y') + "-" + Pad2(m'), "-");
    AppendCancel(IntToString(y) + "-", Pad2(m), IntToString(y') + "-", Pad2(m'));
    AppendCancel(IntToString(y), "-", IntToString(y'), "-");
    IntToStringInjective(y, y');
    Pad2Injective(m, m');
    Pad2Injective(d, d');
  }

  /** Distinct days have distinct ISO dates. */
  lemma FormatISOInjective(a: Day, b: Day)
    requires FormatISO(a) == FormatISO(b)
    ensures a == b
  {
    var ca, cb := CivilFromDays(a), CivilFromDays(b);
    DaysRoundTrip(a);
    DaysRoundTrip(b);
    IsoTextInjective(ca.year, ca.month, ca.day, cb.year, cb.month, cb.day);
    assert ca == cb;
  }

  /** `MM/DD/YYYY` as the pay-period label writes one end of the range. */
  function FormatSlashed(d: Day): string
  {
    var c := CivilFromDays(d);
    Pad2(c.month) + "/" + Pad2(c.day) + "/" + IntToString(c.year)
  }
}
