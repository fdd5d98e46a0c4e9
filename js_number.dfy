/** JavaScript numbers as the meta codec of the statement form uses them:
    `Number(string)` (the StringToNumber grammar), `String(number)` (the
    Number::toString algorithm) and truthiness. Finite values are exact
    decimals `±significand × 10^exponent`; the rounding of IEEE doubles is not
    modelled. */
module JsNumber {
  import opened Text
  import opened Wrappers

  function Pow10(n: nat): (r: nat)
    ensures r >= 1
  {
    if n == 0 then 1 else 10 * Pow10(n - 1)
  }

  lemma {:induction false} Pow10Add(a: nat, b: nat)
    ensures Pow10(a + b) == Pow10(a) * Pow10(b)
  {
    if b > 0 {
      Pow10Add(a, b - 1);
      assert Pow10(a + b) == 10 * Pow10(a + b - 1);
    }
  }

  /** 10^e for any integer exponent. */
  function Pow10Real(e: int): (r: real)
    ensures r > 0.0
  {
    if e >= 0 then Pow10(e) as real else 1.0 / (Pow10(-e) as real)
  }

  /** A finite decimal `±significand × 10^exponent`. */
  datatype Dec = Dec(negative: bool, significand: nat, exponent: int)
  {
    /** The real number denoted. */
    function Value(): real
    {
      (if negative then -1.0 else 1.0) * (significand as real) * Pow10Real(exponent)
    }

    /** One representation per number: zero is `+0 × 10^0` (JavaScript's
        `-0` prints and compares as `0`), otherwise the significand carries
        no trailing zero. */
    predicate Canonical()
    {
      if significand == 0 then !negative && exponent == 0 else significand % 10 != 0
    }

    /** `x >= 0`, with `-0 >= 0` true. */
    predicate NonNegative() { !negative || significand == 0 }
  }

  const Zero: Dec := Dec(false, 0, 0)
  const One: Dec := Dec(false, 1, 0)

  /** Moves trailing zeros of the significand into the exponent. */
  function Normalise(negative: bool, u: nat, e: int): (d: Dec)
    ensures d.Canonical()
    ensures u > 0 ==> d.negative == negative && d.significand > 0
    ensures u == 0 ==> d == Zero
    decreases u
  {
    if u == 0 then Zero
    else if u % 10 == 0 then Normalise(negative, u / 10, e + 1)
    else Dec(negative, u, e)
  }

  lemma {:induction false} NormaliseShift(negative: bool, s: nat, j: nat, e: int)
    requires s > 0 && s % 10 != 0
    ensures Normalise(negative, s * Pow10(j), e) == Dec(negative, s, e + j)
    decreases j
  {
    if j > 0 {
      ShiftStep(s, j);
      NormaliseShift(negative, s, j - 1, e + 1);
    }
  }

  /** One more power of ten is one more trailing zero. */
  lemma ShiftStep(s: nat, j: nat)
    requires s > 0 && j > 0
    ensures s * Pow10(j) > 0 && (s * Pow10(j)) % 10 == 0
    ensures (s * Pow10(j)) / 10 == s * Pow10(j - 1)
  {
    var a := s * Pow10(j - 1);
    assert Pow10(j) == 10 * Pow10(j - 1);
    MulTen(s, Pow10(j - 1));
    TenDiv(a);
  }

  lemma MulTen(s: nat, p: nat)
    requires s > 0 && p > 0
    ensures s * (10 * p) == (s * p) * 10 && s * p > 0
  {
  }

  lemma TenDiv(a: nat)
    ensures (a * 10) % 10 == 0 && (a * 10) / 10 == a
  {
  }

  /** The sign is carried through untouched. */
  lemma {:induction false} NormaliseSign(u: nat, e: int)
    requires u > 0
    ensures Normalise(true, u, e) == Normalise(false, u, e).(negative := true)
    decreases u
  {
    if u % 10 == 0 {
      NormaliseSign(u / 10, e + 1);
    }
  }

  lemma NormaliseCanonical(d: Dec)
    requires d.Canonical()
    ensures Normalise(d.negative, d.significand, d.exponent) == d
  {
  }

  /** Normalising keeps the value. */
  lemma {:induction false} NormaliseValue(negative: bool, u: nat, e: int)
    ensures Normalise(negative, u, e).Value() == Dec(negative, u, e).Value()
    decreases u
  {
    if u != 0 && u % 10 == 0 {
      NormaliseValue(negative, u / 10, e + 1);
      DropZeroValue(negative, u, e);
    }
  }

  lemma DropZeroValue(negative: bool, u: nat, e: int)
    requires u % 10 == 0
    ensures Dec(negative, u / 10, e + 1).Value() == Dec(negative, u, e).Value()
  {
    var sg := if negative then -1.0 else 1.0;
    var q := (u / 10) as real;
    var p := Pow10Real(e);
    var p1 := Pow10Real(e + 1);
    Pow10RealStep(e);
    assert u as real == q * 10.0;
    Regroup(sg, q, p, p1);
  }

  lemma Regroup(sg: real, q: real, p: real, p1: real)
    requires p1 == 10.0 * p
    ensures sg * q * p1 == sg * (q * 10.0) * p
  {
  }

  lemma Pow10RealStep(e: int)
    ensures Pow10Real(e + 1) == 10.0 * Pow10Real(e)
  {
    if e < 0 {
      assert Pow10(-e) == 10 * Pow10(-e - 1);
      if e + 1 < 0 {
        assert Pow10Real(e + 1) == 1.0 / (Pow10(-e - 1) as real);
      }
    }
  }

  /** A JavaScript number value. */
  datatype JsNum = Finite(d: Dec) | NaN | Infinity(negative: bool)
  {
    /** Every finite value is held in canonical form. */
    predicate Valid() { Finite? ==> d.Canonical() }

    /** `Boolean(x)`: false for 0 and NaN. */
    predicate Truthy() { (Finite? && d.significand != 0) || Infinity? }

    /** `isFinite(x)`. */
    predicate IsFinite() { Finite? }
  }

  // ---------------------------------------------------------------------
  // Number::toString

  /** `String(x)` for a positive canonical `s × 10^e`. */
  function FormatPositive(s: nat, e: int): string
    requires s > 0
  {
    FormatDigits(NatToString(s), e)
  }

  /** The digits `d` of a significand placed against exponent `e`: plain
      notation while the decimal point falls within 21 digits left or 6 zeros
      right of the digits, exponent notation otherwise. */
  function FormatDigits(d: string, e: int): string
    requires d != []
  {
    var k := |d|;
    var n := k + e;
    if k <= n <= 21 then d + Repeat('0', n - k)
    else if 0 < n <= 21 then d[..n] + "." + d[n..]
    else if -6 < n <= 0 then "0." + Repeat('0', -n) + d
    else if k == 1 then d + ExponentPart(n - 1)
    else d[..1] + "." + d[1..] + ExponentPart(n - 1)
  }

  /** `e+x` or `e-x`. */
  function ExponentPart(x: int): string
  {
    "e" + (if x > 0 then "+" else "-") + NatToString(if x < 0 then -x else x)
  }

  /** `String(x)`. */
  function ToString(x: JsNum): string
  {
    match x
    case NaN => "NaN"
    case Infinity(neg) => if neg then "-Infinity" else "Infinity"
    case Finite(d) =>
      var c := Normalise(d.negative, d.significand, d.exponent);
      if c.significand == 0 then "0"
      else if c.negative then "-" + FormatPositive(c.significand, c.exponent)
      else FormatPositive(c.significand, c.exponent)
  }

  // ---------------------------------------------------------------------
  // StringToNumber

  /** The length of the run of decimal digits that starts the string. */
  function LeadingDigits(s: string): (r: nat)
    ensures r <= |s| && AllDigits(s[..r])
    ensures r < |s| ==> !IsDigit(s[r])
  {
    if s != [] && IsDigit(s[0]) then
      var t := LeadingDigits(s[1..]);
      assert s[..1 + t] == [s[0]] + s[1..][..t];
      1 + t
    else 0
  }

  /** The exponent part `[eE][+-]digits`, or nothing. */
  function ParseExponent(r: string): Option<int>
  {
    if r == [] then Some(0)
    else if r[0] != 'e' && r[0] != 'E' then None
    else
      var t := r[1..];
      var neg := t != [] && t[0] == '-';
      var u := if t != [] && (t[0] == '+' || t[0] == '-') then t[1..] else t;
      if u == [] || !AllDigits(u) then None
      else Some(if neg then -(DigitsValue(u) as int) else DigitsValue(u))
  }

  /** An unsigned decimal literal `digits[.digits][exponent]` or
      `.digits[exponent]`, as a significand and a power of ten. */
  function ParseUnsigned(r: string): Option<(nat, int)>
  {
    var i := LeadingDigits(r);
    AfterInteger(r[..i], r[i..])
  }

  function AfterInteger(intPart: string, rest: string): Option<(nat, int)>
    requires AllDigits(intPart)
  {
    if rest != [] && rest[0] == '.' then
      var f := LeadingDigits(rest[1..]);
      Literal(intPart, rest[1..][..f], ParseExponent(rest[1..][f..]))
    else Literal(intPart, [], ParseExponent(rest))
  }

  /** The literal with integer digits, fraction digits and the exponent
      read from what follows them. */
  function Literal(intPart: string, fracPart: string, exponent: Option<int>): Option<(nat, int)>
    requires AllDigits(intPart) && AllDigits(fracPart)
  {
    if |intPart| + |fracPart| == 0 then None
    else
      match exponent
      case None => None
      case Some(x) =>
        AllDigitsConcat(intPart, fracPart);
        Some((DigitsValue(intPart + fracPart), x - |fracPart|))
  }

  /** The radix named by the letter after a leading `0` (`0x`, `0o`, `0b`), or 0. */
  function RadixOf(c: char): nat
  {
    if c == 'x' || c == 'X' then 16 else if c == 'o' || c == 'O' then 8
    else if c == 'b' || c == 'B' then 2 else 0
  }

  /** The value of a hexadecimal digit character, or 16 for any other character. */
  function HexValue(c: char): (v: nat)
    ensures v <= 16
  {
    if '0' <= c <= '9' then (c as int) - ('0' as int)
    else if 'a' <= c <= 'f' then (c as int) - ('a' as int) + 10
    else if 'A' <= c <= 'F' then (c as int) - ('A' as int) + 10
    else 16
  }

  predicate AllRadixDigits(s: string, radix: nat)
  {
    forall i :: 0 <= i < |s| ==> HexValue(s[i]) < radix
  }

  function RadixValue(s: string, radix: nat): nat
  {
    if s == [] then 0
    else
      var v := HexValue(s[|s| - 1]);
      RadixValue(s[..|s| - 1], radix) * radix + (if v < radix then v else 0)
  }

  /** `Number(s)`: surrounding white space is ignored, the empty string is
      0, then a signed decimal literal, a signed `Infinity`, or an unsigned
      `0x`/`0o`/`0b` integer; anything else is NaN. */
  function ParseNumber(s: string): (x: JsNum)
    ensures x.Valid()
  {
    ParseTrimmed(Trim(s))
  }

  /** StringToNumber once the white space is gone. */
  function ParseTrimmed(t: string): (x: JsNum)
    ensures x.Valid()
  {
    if t == [] then Finite(Zero)
    else if t == "Infinity" || t == "+Infinity" then Infinity(false)
    else if t == "-Infinity" then Infinity(true)
    else if |t| >= 2 && t[0] == '0' && RadixOf(t[1]) > 0 then
      var body := t[2..];
      if body != [] && AllRadixDigits(body, RadixOf(t[1]))
      then Finite(Normalise(false, RadixValue(body, RadixOf(t[1])), 0))
      else NaN
    else
      var negative := t[0] == '-';
      var body := if t[0] == '+' || t[0] == '-' then t[1..] else t;
      match ParseUnsigned(body)
      case None => NaN
      case Some(p) => Finite(Normalise(negative, p.0, p.1))
  }

  // ---------------------------------------------------------------------
  // Number(String(x)) == x

  lemma AllDigitsConcat(a: string, b: string)
    requires AllDigits(a) && AllDigits(b)
    ensures AllDigits(a + b)
  {
    var ab := a + b;
    forall i | 0 <= i < |ab| ensures IsDigit(ab[i]) {
      if i < |a| { assert ab[i] == a[i]; } else { assert ab[i] == b[i - |a|]; }
    }
  }

  lemma {:induction false} DigitsValueConcat(a: string, b: string)
    requires AllDigits(a) && AllDigits(b)
    ensures AllDigits(a + b)
    ensures DigitsValue(a + b) == DigitsValue(a) * Pow10(|b|) + DigitsValue(b)
    decreases |b|
  {
    AllDigitsConcat(a, b);
    if b == [] {
      assert a + b == a;
    } else {
      var b' := b[..|b| - 1];
      var c := b[|b| - 1];
      var ab := a + b;
      assert ab == (a + b') + [c];
      assert ab[..|ab| - 1] == a + b';
      AllDigitsSlice(b, 0, |b| - 1);
      DigitsValueConcat(a, b');
      var d := (c as int) - ('0' as int);
      assert DigitsValue(ab) == DigitsValue(a + b') * 10 + d;
      assert DigitsValue(b) == DigitsValue(b') * 10 + d;
      assert Pow10(|b|) == 10 * Pow10(|b'|);
      Distribute(DigitsValue(a), Pow10(|b'|), DigitsValue(b'));
    }
  }

  lemma Distribute(x: nat, p: nat, y: nat)
    ensures (x * p + y) * 10 == x * (10 * p) + y * 10
  {
  }

  lemma {:induction false} ZerosValue(n: nat)
    ensures AllDigits(Repeat('0', n)) && DigitsValue(Repeat('0', n)) == 0
  {
    if n > 0 {
      ZerosValue(n - 1);
      assert Repeat('0', n)[..n - 1] == Repeat('0', n - 1);
    }
  }

  lemma {:induction false} LeadingDigitsOf(a: string, b: string)
    requires AllDigits(a)
    requires b == [] || !IsDigit(b[0])
    ensures LeadingDigits(a + b) == |a|
    decreases |a|
  {
    if a == [] {
      assert a + b == b;
    } else {
      assert (a + b)[0] == a[0];
      assert (a + b)[1..] == a[1..] + b;
      AllDigitsSlice(a, 1, |a|);
      LeadingDigitsOf(a[1..], b);
    }
  }

  lemma AllDigitsSlice(s: string, i: nat, j: nat)
    requires AllDigits(s) && i <= j <= |s|
    ensures AllDigits(s[i..j])
  {
    assert forall k :: 0 <= k < j - i ==> s[i..j][k] == s[i + k];
  }

  /** The exponent suffix written by FormatPositive reads back as `x`. */
  lemma ExponentRoundTrip(x: int)
    requires x != 0
    ensures ExponentPart(x) != [] && ExponentPart(x)[0] == 'e'
    ensures ParseExponent(ExponentPart(x)) == Some(x)
  {
    var m: nat := if x < 0 then -x else x;
    NatToStringSpec(m);
    var r := ExponentPart(x);
    assert r[1..][1..] == NatToString(m);
  }

  /** An integer literal without a point reads as its digits. */
  lemma ParseUnsignedInteger(a: string, tail: string)
    requires AllDigits(a) && a != []
    requires tail == [] || tail[0] == 'e'
    ensures ParseUnsigned(a + tail)
            == if ParseExponent(tail).Some? then Some((DigitsValue(a), ParseExponent(tail).value)) else None
  {
    var r := a + tail;
    LeadingDigitsOf(a, tail);
    assert r[..|a|] == a;
    assert r[|a|..] == tail;
    assert ParseUnsigned(r) == AfterInteger(a, tail);
    assert AfterInteger(a, tail) == Literal(a, [], ParseExponent(tail));
    assert a + [] == a;
  }

  /** A literal `a.b` reads as the digits of both parts, scaled by the
      length of the fraction. */
  lemma ParseUnsignedFraction(a: string, b: string, tail: string)
    requires AllDigits(a) && AllDigits(b) && |a| + |b| > 0
    requires tail == [] || tail[0] == 'e'
    ensures ParseUnsigned(a + "." + b + tail) == Literal(a, b, ParseExponent(tail))
  {
    var r := a + "." + b + tail;
    var rest := "." + (b + tail);
    assert r == a + rest;
    LeadingDigitsOf(a, rest);
    assert r[..|a|] == a;
    assert r[|a|..] == rest;
    assert ParseUnsigned(r) == AfterInteger(a, rest);
    assert rest[1..] == b + tail;
    LeadingDigitsOf(b, tail);
    assert (b + tail)[..|b|] == b;
    assert (b + tail)[|b|..] == tail;
  }

  /** A digit string with its value. */
  predicate DigitsOf(d: string, s: nat)
  {
    d != [] && AllDigits(d) && DigitsValue(d) == s
  }

  lemma FormatPlainInteger(d: string, s: nat, e: int)
    requires DigitsOf(d, s)
    requires |d| <= |d| + e <= 21
    ensures ParseUnsigned(FormatDigits(d, e)) == Some(((s * Pow10(e)) as nat, 0))
  {
    var zs := Repeat('0', e);
    var str := d + zs;
    PlainIntegerValue(d, s, e);
    var empty: string := [];
    assert str + empty == str;
    ParseUnsignedInteger(str, empty);
  }

  lemma PlainIntegerValue(d: string, s: nat, e: nat)
    requires DigitsOf(d, s)
    ensures AllDigits(d + Repeat('0', e)) && DigitsValue(d + Repeat('0', e)) == s * Pow10(e)
  {
    ZerosValue(e);
    DigitsValueConcat(d, Repeat('0', e));
  }

  /** A literal `a.b` followed by an exponent `x` reads as `s × 10^(x - |b|)`,
      where `s` is the value of the digits of `a` and `b` together. */
  lemma FractionParses(a: string, b: string, tail: string, s: nat, x: int)
    requires AllDigits(a) && AllDigits(b) && |a| + |b| > 0
    requires tail == [] || tail[0] == 'e'
    requires ParseExponent(tail) == Some(x)
    requires AllDigits(a + b) && DigitsValue(a + b) == s
    ensures ParseUnsigned(a + "." + b + tail) == Some((s, x - |b|))
  {
    ParseUnsignedFraction(a, b, tail);
    LiteralValue(a, b, s, x);
  }

  lemma LiteralValue(a: string, b: string, s: nat, x: int)
    requires AllDigits(a) && AllDigits(b) && |a| + |b| > 0
    requires AllDigits(a + b) && DigitsValue(a + b) == s
    ensures Literal(a, b, Some(x)) == Some((s, x - |b|))
  {
    assert |a| + |b| != 0;
  }

  lemma FractionParsesPlain(a: string, b: string, s: nat)
    requires AllDigits(a) && AllDigits(b) && |a| + |b| > 0
    requires AllDigits(a + b) && DigitsValue(a + b) == s
    ensures ParseUnsigned(a + "." + b) == Some((s, -|b|))
  {
    var str := a + "." + b;
    var empty: string := [];
    assert str + empty == str;
    FractionParses(a, b, empty, s, 0);
  }

  /** Cutting a digit string anywhere gives two digit strings that join
      back to it. */
  lemma SplitDigits(d: string, s: nat, n: nat)
    requires DigitsOf(d, s) && n <= |d|
    ensures AllDigits(d[..n]) && AllDigits(d[n..])
    ensures d[..n] + d[n..] == d
  {
    AllDigitsSlice(d, 0, n);
    AllDigitsSlice(d, n, |d|);
  }

  lemma FormatPlainFraction(d: string, s: nat, e: int)
    requires DigitsOf(d, s)
    requires 0 < |d| + e < |d| && |d| + e <= 21
    ensures ParseUnsigned(FormatDigits(d, e)) == Some((s, e))
  {
    var n := |d| + e;
    SplitDigits(d, s, n);
    FractionParsesPlain(d[..n], d[n..], s);
  }

  /** Zeros in front of a digit string do not change its value. */
  lemma SmallDigits(d: string, s: nat, z: nat)
    requires DigitsOf(d, s)
    ensures AllDigits("0") && AllDigits(Repeat('0', z) + d)
    ensures AllDigits("0" + (Repeat('0', z) + d)) && DigitsValue("0" + (Repeat('0', z) + d)) == s
  {
    ZerosValue(z + 1);
    AllDigitsConcat(Repeat('0', z), d);
    ZerosPrefix(z, d);
    DigitsValueConcat(Repeat('0', z + 1), d);
  }

  lemma {:induction false} ZerosPrefix(z: nat, d: string)
    ensures "0" + (Repeat('0', z) + d) == Repeat('0', z + 1) + d
  {
    RepeatFront(z);
  }

  lemma {:induction false} RepeatFront(z: nat)
    ensures "0" + Repeat('0', z) == Repeat('0', z + 1)
  {
    if z > 0 {
      RepeatFront(z - 1);
    }
  }

  lemma FormatSmall(d: string, s: nat, e: int)
    requires DigitsOf(d, s)
    requires -6 < |d| + e <= 0
    ensures ParseUnsigned(FormatDigits(d, e)) == Some((s, e))
  {
    SmallText(d, e);
    SmallParses(d, s, e);
  }

  lemma SmallParses(d: string, s: nat, e: int)
    requires DigitsOf(d, s) && -6 < |d| + e <= 0
    ensures ParseUnsigned("0" + "." + (Repeat('0', -(|d| + e)) + d)) == Some((s, e))
  {
    var z := -(|d| + e);
    SmallDigits(d, s, z);
    FractionParsesPlain("0", Repeat('0', z) + d, s);
  }

  lemma SmallText(d: string, e: int)
    requires d != [] && -6 < |d| + e <= 0
    ensures FormatDigits(d, e) == "0" + "." + (Repeat('0', -(|d| + e)) + d)
  {
  }

  lemma FormatExponent(d: string, s: nat, e: int)
    requires DigitsOf(d, s)
    requires !(|d| <= |d| + e <= 21)
    requires !(0 < |d| + e <= 21)
    requires !(-6 < |d| + e <= 0)
    ensures ParseUnsigned(FormatDigits(d, e)) == Some((s, e))
  {
    ExponentText(d, e);
    if |d| == 1 {
      ExponentOneDigit(d, s, e);
    } else {
      ExponentManyDigits(d, s, e);
    }
  }

  lemma ExponentText(d: string, e: int)
    requires d != []
    requires !(|d| <= |d| + e <= 21)
    requires !(0 < |d| + e <= 21)
    requires !(-6 < |d| + e <= 0)
    ensures FormatDigits(d, e)
            == if |d| == 1 then d + ExponentPart(|d| + e - 1)
               else d[..1] + "." + d[1..] + ExponentPart(|d| + e - 1)
  {
  }

  lemma ExponentOneDigit(d: string, s: nat, e: int)
    requires DigitsOf(d, s) && |d| == 1 && |d| + e - 1 != 0
    ensures ParseUnsigned(d + ExponentPart(|d| + e - 1)) == Some((s, e))
  {
    var x := |d| + e - 1;
    assert x == e;
    ExponentRoundTrip(x);
    ParseUnsignedInteger(d, ExponentPart(x));
  }

  lemma ExponentManyDigits(d: string, s: nat, e: int)
    requires DigitsOf(d, s) && |d| > 1 && |d| + e - 1 != 0
    ensures ParseUnsigned(d[..1] + "." + d[1..] + ExponentPart(|d| + e - 1)) == Some((s, e))
  {
    var x := |d| + e - 1;
    ExponentRoundTrip(x);
    PointAfterFirst(d, s, ExponentPart(x), x);
  }

  /** Digits with a point after the first one, then an exponent `x`, read
      back as the digits' value and `x` less the digits after the point. */
  lemma PointAfterFirst(d: string, s: nat, tail: string, x: int)
    requires DigitsOf(d, s) && |d| > 1
    requires tail != [] && tail[0] == 'e' && ParseExponent(tail) == Some(x)
    ensures ParseUnsigned(d[..1] + "." + d[1..] + tail) == Some((s, x - (|d| - 1)))
  {
    SplitValue(d, s, 1);
    FractionParses(d[..1], d[1..], tail, s, x);
  }

  /** The two parts of a cut digit string are digit strings whose join has
      the value of the whole. */
  lemma SplitValue(d: string, s: nat, n: nat)
    requires DigitsOf(d, s) && n <= |d|
    ensures AllDigits(d[..n]) && AllDigits(d[n..])
    ensures AllDigits(d[..n] + d[n..]) && DigitsValue(d[..n] + d[n..]) == s
  {
    SplitDigits(d, s, n);
  }

  /** The text of a positive number starts and ends with a digit. */
  lemma FormatDigitsEnds(d: string, e: int)
    requires d != [] && AllDigits(d) && d[0] != '0'
    ensures LiteralShape(FormatDigits(d, e))
  {
    var k := |d|;
    var n := k + e;
    var x := n - 1;
    var m: nat := if x < 0 then -x else x;
    NatToStringSpec(m);
    assert IsDigit(d[0]) && IsDigit(d[k - 1]);
    var ep := ExponentPart(x);
    assert ep[|ep| - 1] == NatToString(m)[|NatToString(m)| - 1];
    assert IsDigit(ep[|ep| - 1]);
  }

  /** The digits of a positive canonical number read back as its
      significand and exponent. */
  lemma FormatDigitsParses(d: string, s: nat, e: int)
    requires DigitsOf(d, s) && s % 10 != 0
    ensures ParseUnsigned(FormatDigits(d, e)).Some?
    ensures var p := ParseUnsigned(FormatDigits(d, e)).value; Normalise(false, p.0, p.1) == Dec(false, s, e)
  {
    var k := |d|;
    var n := k + e;
    assert s > 0;
    if k <= n <= 21 {
      FormatPlainInteger(d, s, e);
      NormaliseShift(false, s, e, 0);
    } else if 0 < n <= 21 {
      FormatPlainFraction(d, s, e);
      NormaliseShift(false, s, 0, e);
    } else if -6 < n <= 0 {
      FormatSmall(d, s, e);
      NormaliseShift(false, s, 0, e);
    } else {
      FormatExponent(d, s, e);
      NormaliseShift(false, s, 0, e);
    }
  }

  lemma TrimUnchanged(s: string)
    requires s != [] && !IsWhitespace(s[0]) && !IsWhitespace(s[|s| - 1])
    ensures Trim(s) == s
  {
  }

  /** What the text of a positive number looks like at its ends. */
  predicate LiteralShape(str: string)
  {
    |str| > 0 && IsDigit(str[0]) && IsDigit(str[|str| - 1])
    && (str[0] == '0' ==> |str| > 1 && str[1] == '.')
  }

  lemma ParseUnsignedText(str: string, p: (nat, int))
    requires LiteralShape(str) && ParseUnsigned(str) == Some(p)
    ensures ParseTrimmed(str) == Finite(Normalise(false, p.0, p.1))
  {
    NotKeyword(str);
  }

  /** The text of a positive number is neither `Infinity` nor a radix literal. */
  lemma NotKeyword(str: string)
    requires LiteralShape(str)
    ensures str != "Infinity" && str != "+Infinity" && str != "-Infinity"
    ensures !(|str| >= 2 && str[0] == '0' && RadixOf(str[1]) > 0)
    ensures str[0] != '+' && str[0] != '-'
  {
    assert "Infinity"[0] == 'I';
    assert "+Infinity"[0] == '+';
    assert "-Infinity"[0] == '-';
  }

  lemma ParseSigned(t: string)
    requires |t| >= 2 && t[0] == '-' && IsDigit(t[1])
    ensures ParseTrimmed(t) == match ParseUnsigned(t[1..]) case None => NaN case Some(p) => Finite(Normalise(true, p.0, p.1))
  {
    assert t != "-Infinity" by { assert "-Infinity"[1] == 'I'; }
    assert t != "Infinity" && t != "+Infinity";
  }

  lemma ParseNegativeText(str: string, p: (nat, int))
    requires LiteralShape(str) && ParseUnsigned(str) == Some(p)
    ensures ParseTrimmed("-" + str) == Finite(Normalise(true, p.0, p.1))
  {
    var t := "-" + str;
    ParseSigned(t);
    assert t[1..] == str;
  }

  lemma ParseZeroText()
    ensures ParseTrimmed("0") == Finite(Zero)
  {
    var z := "0";
    assert LeadingDigits(z) == 1;
    assert z[..1] == z;
    assert z[1..] == [];
    assert ParseUnsigned(z) == AfterInteger(z, []);
    assert z + [] == z;
    assert DigitsValue(z) == 0;
    assert ParseExponent([]) == Some(0);
    assert Literal(z, [], Some(0)) == Some((0, 0));
  }

  lemma ParseUntrimmed(s: string)
    requires s != [] && !IsWhitespace(s[0]) && !IsWhitespace(s[|s| - 1])
    ensures ParseNumber(s) == ParseTrimmed(s)
  {
    TrimUnchanged(s);
  }

  /** `Number(String(x))` gives `x` back for every JavaScript number. */
  lemma ParseToString(x: JsNum)
    requires x.Valid()
    ensures ParseNumber(ToString(x)) == x
  {
    match x
    case NaN =>
      NaNRoundTrip();
    case Infinity(neg) =>
      InfinityRoundTrip(neg);
    case Finite(d) =>
      if d.significand == 0 {
        ZeroRoundTrip();
      } else {
        ParseToStringNonZero(d);
      }
  }

  lemma NaNRoundTrip()
    ensures ParseNumber(ToString(NaN)) == NaN
  {
    ParseUntrimmed("NaN");
  }

  lemma InfinityRoundTrip(neg: bool)
    ensures ParseNumber(ToString(Infinity(neg))) == Infinity(neg)
  {
    ParseUntrimmed(ToString(Infinity(neg)));
  }

  lemma ZeroRoundTrip()
    ensures ParseNumber(ToString(Finite(Zero))) == Finite(Zero)
  {
    ParseUntrimmed("0");
    ParseZeroText();
  }

  lemma ParseToStringNonZero(d: Dec)
    requires d.Canonical() && d.significand != 0
    ensures ParseNumber(ToString(Finite(d))) == Finite(d)
  {
    NormaliseCanonical(d);
    var digits := NatToString(d.significand);
    NatToStringSpec(d.significand);
    var str := FormatDigits(digits, d.exponent);
    FormatDigitsEnds(digits, d.exponent);
    FormatDigitsParses(digits, d.significand, d.exponent);
    var p := ParseUnsigned(str).value;
    if d.negative {
      NegativeRoundTrip(d, str, p);
    } else {
      PositiveRoundTrip(d, str, p);
    }
  }

  lemma PositiveRoundTrip(d: Dec, str: string, p: (nat, int))
    requires d.Canonical() && d.significand != 0 && !d.negative
    requires str == FormatPositive(d.significand, d.exponent)
    requires LiteralShape(str) && ParseUnsigned(str) == Some(p)
    requires Normalise(false, p.0, p.1) == d
    ensures ParseNumber(ToString(Finite(d))) == Finite(d)
  {
    NormaliseCanonical(d);
    assert ToString(Finite(d)) == str;
    ParseUntrimmed(str);
    ParseUnsignedText(str, p);
  }

  lemma NegativeRoundTrip(d: Dec, str: string, p: (nat, int))
    requires d.Canonical() && d.significand != 0 && d.negative
    requires str == FormatPositive(d.significand, d.exponent)
    requires LiteralShape(str) && ParseUnsigned(str) == Some(p)
    requires Normalise(false, p.0, p.1) == Dec(false, d.significand, d.exponent)
    ensures ParseNumber(ToString(Finite(d))) == Finite(d)
  {
    NormaliseCanonical(d);
    assert ToString(Finite(d)) == "-" + str;
    ParseUntrimmed("-" + str);
    ParseNegativeText(str, p);
    NormaliseSign(p.0, p.1);
  }

  /** `Math.round`: the nearest integer, halves rounded up. */
  function Round(x: real): (r: int)
    ensures r as real - 0.5 <= x < r as real + 0.5
  {
    (x + 0.5).Floor
  }
}
