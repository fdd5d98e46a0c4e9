/** The application/x-www-form-urlencoded format of the WHATWG URL Standard
    as `URLSearchParams` reads and writes it: `&`-separated `name=value`
    pairs, `+` for a space and `%XX` escapes. */
module FormUrlEncoded {
  import opened Text
  import opened Wrappers
  import JsNumber

  /** Characters the serializer leaves as they are. */
  predicate Unreserved(c: char)
  {
    IsAlnum(c) || c == '*' || c == '-' || c == '.' || c == '_'
  }

  function HexDigit(v: nat): (c: char)
    requires v < 16
    ensures JsNumber.HexValue(c) == v
  {
    if v < 10 then (('0' as int) + v) as char else (('A' as int) + v - 10) as char
  }

  /** The encoding of one character. Characters outside ASCII are kept as
      they are (the standard writes their UTF-8 bytes as escapes, which read
      back to the same character). */
  function EncodeChar(c: char): string
  {
    if c == ' ' then "+"
    else if Unreserved(c) || c as int >= 128 then [c]
    else ['%', HexDigit(c as int / 16), HexDigit(c as int % 16)]
  }

  function Encode(s: string): string
  {
    if s == [] then [] else EncodeChar(s[0]) + Encode(s[1..])
  }

  /** Reading back: `+` is a space, `%XX` naming an ASCII code is that
      character, anything else stands for itself. */
  function Decode(s: string): string
  {
    if s == [] then []
    else if s[0] == '+' then " " + Decode(s[1..])
    else if |s| >= 3 && s[0] == '%' && JsNumber.HexValue(s[1]) < 8 && JsNumber.HexValue(s[2]) < 16 then
      [(16 * JsNumber.HexValue(s[1]) + JsNumber.HexValue(s[2])) as char] + Decode(s[3..])
    else [s[0]] + Decode(s[1..])
  }

  lemma DecodeEncodeChar(c: char, rest: string)
    ensures Decode(EncodeChar(c) + rest) == [c] + Decode(rest)
  {
    var e := EncodeChar(c) + rest;
    if c == ' ' {
      assert e[1..] == rest;
    } else if Unreserved(c) || c as int >= 128 {
      assert e[0] == c && e[1..] == rest;
    } else {
      assert e[3..] == rest;
      assert (16 * (c as int / 16) + c as int % 16) as char == c;
    }
  }

  /** Decoding undoes encoding. */
  lemma {:induction false} DecodeEncode(s: string)
    ensures Decode(Encode(s)) == s
  {
    if s != [] {
      DecodeEncodeChar(s[0], Encode(s[1..]));
      DecodeEncode(s[1..]);
      assert [s[0]] + s[1..] == s;
    }
  }

  /** Encoded text holds no separator, so pairs can be cut apart again. */
  lemma {:induction false} EncodeNoSeparators(s: string)
    ensures '&' !in Encode(s) && '=' !in Encode(s)
  {
    if s != [] {
      EncodeNoSeparators(s[1..]);
      var c := s[0];
      assert '&' !in EncodeChar(c) && '=' !in EncodeChar(c) by {
        if !(c == ' ') && !(Unreserved(c) || c as int >= 128) {
          var h1 := HexDigit(c as int / 16);
          var h2 := HexDigit(c as int % 16);
          assert h1 != '&' && h1 != '=' && h2 != '&' && h2 != '=';
        }
      }
    }
  }

  /** One `name=value` piece; a piece without `=` is a name with an empty value. */
  function NameValue(part: string): (string, string)
  {
    if '=' in part then
      var i := IndexOf(part, '=');
      (Decode(part[..i]), Decode(part[i + 1..]))
    else (Decode(part), "")
  }

  function PairsOf(parts: seq<string>): seq<(string, string)>
  {
    if parts == [] then []
    else if parts[0] == [] then PairsOf(parts[1..])
    else [NameValue(parts[0])] + PairsOf(parts[1..])
  }

  /** `new URLSearchParams(query)`: a leading `?` is dropped and empty
      pieces are skipped. */
  function ParseQuery(query: string): seq<(string, string)>
  {
    var body := if query != [] && query[0] == '?' then query[1..] else query;
    PairsOf(Split(body, '&'))
  }

  /** `params.get(name)`: the first value under that name, or null. */
  function Get(params: seq<(string, string)>, name: string): (r: Option<string>)
    ensures r.Some? <==> exists i :: 0 <= i < |params| && params[i].0 == name
  {
    if params == [] then None
    else if params[0].0 == name then Some(params[0].1)
    else
      var r := Get(params[1..], name);
      assert forall i :: 0 < i < |params| ==> params[i] == params[1..][i - 1];
      r
  }

  /** `params.toString()` for a list of pairs. */
  function Serialize(params: seq<(string, string)>): string
  {
    if params == [] then ""
    else if |params| == 1 then Encode(params[0].0) + "=" + Encode(params[0].1)
    else Encode(params[0].0) + "=" + Encode(params[0].1) + "&" + Serialize(params[1..])
  }

  lemma NameValueEncoded(name: string, value: string)
    ensures NameValue(Encode(name) + "=" + Encode(value)) == (name, value)
  {
    var en := Encode(name);
    var ev := Encode(value);
    var part := en + "=" + ev;
    EncodeNoSeparators(name);
    assert part[|en|] == '=';
    assert part[..|en|] == en;
    IndexOfUnique(part, '=', |en|);
    assert part[|en| + 1..] == ev;
    DecodeEncode(name);
    DecodeEncode(value);
  }

  /** Serialising two pairs and reading them back gives the same pairs. */
  lemma ParseSerializeTwo(n1: string, v1: string, n2: string, v2: string)
    requires n1 != [] && n1[0] != '?'
    ensures ParseQuery(Serialize([(n1, v1), (n2, v2)])) == [(n1, v1), (n2, v2)]
  {
    var a := Encode(n1) + "=" + Encode(v1);
    var b := Encode(n2) + "=" + Encode(v2);
    SerializeTwoShape(n1, v1, n2, v2);
    EncodeFirst(n1);
    EncodeNoSeparators(n1);
    EncodeNoSeparators(v1);
    EncodeNoSeparators(n2);
    EncodeNoSeparators(v2);
    SplitTwo(a, b);
    NameValueEncoded(n1, v1);
    NameValueEncoded(n2, v2);
    PairsOfTwo(a, b);
  }

  lemma SerializeTwoShape(n1: string, v1: string, n2: string, v2: string)
    ensures Serialize([(n1, v1), (n2, v2)]) == (Encode(n1) + "=" + Encode(v1)) + ['&'] + (Encode(n2) + "=" + Encode(v2))
  {
    var ps := [(n1, v1), (n2, v2)];
    assert ps[1..] == [(n2, v2)];
    assert Serialize(ps[1..]) == Encode(n2) + "=" + Encode(v2);
  }

  lemma EncodeFirst(s: string)
    requires s != [] && s[0] != '?'
    ensures Encode(s) != [] && Encode(s)[0] != '?'
  {
    assert Encode(s) == EncodeChar(s[0]) + Encode(s[1..]);
  }

  lemma SplitTwo(a: string, b: string)
    requires '&' !in a && '&' !in b
    ensures Split(a + ['&'] + b, '&') == [a, b]
  {
    SplitAround(a, '&', b);
  }

  lemma PairsOfTwo(a: string, b: string)
    requires a != [] && b != []
    ensures PairsOf([a, b]) == [NameValue(a), NameValue(b)]
  {
    assert [a, b][1..] == [b];
    assert [b][1..] == [];
    assert PairsOf([b]) == [NameValue(b)];
  }
}
