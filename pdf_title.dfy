/** PDF titles and filenames: the title sanitiser (every run of characters
    other than ASCII letters and digits becomes one "_", then leading and
    trailing "_" are dropped), the titles built by the upload button and by
    the two PDF generators, and the page size in points. */
module PdfTitle {
  import opened Text
  import opened Wrappers
  import opened Statement
  import PayPeriods
  import JsNumber

  /** How many characters other than letters and digits start the string. */
  function RunLength(s: string): (n: nat)
    ensures n <= |s| && (n == |s| || IsAlnum(s[n]))
    ensures forall i :: 0 <= i < n ==> !IsAlnum(s[i])
  {
    if s != [] && !IsAlnum(s[0]) then
      var m := RunLength(s[1..]);
      assert forall i :: 1 <= i < m + 1 ==> s[i] == s[1..][i - 1];
      m + 1
    else 0
  }

  /** Drops the run of characters other than letters and digits that
      starts the string. */
  function DropRun(s: string): string
  {
    s[RunLength(s)..]
  }

  /** `replace(/[^A-Za-z0-9]+/g, "_")`. */
  function Collapse(s: string): (r: string)
    ensures s == [] <==> r == []
    ensures s != [] && IsAlnum(s[0]) ==> r[0] == s[0]
    ensures s != [] && !IsAlnum(s[0]) ==> r[0] == '_'
    decreases |s|
  {
    if s == [] then []
    else if IsAlnum(s[0]) then [s[0]] + Collapse(s[1..])
    else "_" + Collapse(DropRun(s[1..]))
  }

  /** Only letters, digits and "_". */
  predicate SafeChars(s: string)
  {
    forall i :: 0 <= i < |s| ==> IsAlnum(s[i]) || s[i] == '_'
  }

  /** No two "_" side by side. */
  predicate NoDoubleUnderscore(s: string)
  {
    forall i :: 0 <= i < |s| - 1 ==> !(s[i] == '_' && s[i + 1] == '_')
  }

  lemma {:induction false} CollapseShape(s: string)
    ensures SafeChars(Collapse(s)) && NoDoubleUnderscore(Collapse(s))
    decreases |s|
  {
    if s != [] {
      var rest := if IsAlnum(s[0]) then s[1..] else DropRun(s[1..]);
      CollapseShape(rest);
      var c := Collapse(rest);
      var r := Collapse(s);
      assert r == [r[0]] + c;
      assert forall i :: 1 <= i < |r| ==> r[i] == c[i - 1];
      if !IsAlnum(s[0]) {
        assert c != [] ==> IsAlnum(c[0]);
      }
    }
  }

  /** The letters and digits of a string, in order. */
  function Alnums(s: string): (r: string)
    ensures |r| <= |s|
  {
    if s == [] then []
    else if IsAlnum(s[0]) then [s[0]] + Alnums(s[1..])
    else Alnums(s[1..])
  }

  lemma {:induction false} AlnumsAppend(a: string, b: string)
    ensures Alnums(a + b) == Alnums(a) + Alnums(b)
  {
    if a == [] {
      assert a + b == b;
    } else {
      assert (a + b)[1..] == a[1..] + b;
      AlnumsAppend(a[1..], b);
    }
  }

  lemma {:induction false} AlnumsNone(s: string)
    requires forall i :: 0 <= i < |s| ==> !IsAlnum(s[i])
    ensures Alnums(s) == []
  {
    if s != [] {
      AlnumsNone(s[1..]);
    }
  }

  lemma {:induction false} CollapseKeepsAlnums(s: string)
    ensures Alnums(Collapse(s)) == Alnums(s)
    decreases |s|
  {
    if s != [] {
      if IsAlnum(s[0]) {
        CollapseKeepsAlnums(s[1..]);
        assert Collapse(s)[1..] == Collapse(s[1..]);
      } else {
        var t := s[1..];
        var d := DropRun(t);
        CollapseKeepsAlnums(d);
        assert Collapse(s)[1..] == Collapse(d);
        assert t == t[..|t| - |d|] + d;
        AlnumsNone(t[..|t| - |d|]);
        AlnumsAppend(t[..|t| - |d|], d);
      }
    }
  }

  /** How many "_" start the string. */
  function LeadingUnderscores(s: string): (n: nat)
    ensures n <= |s| && (n == |s| || s[n] != '_')
    ensures forall i :: 0 <= i < n ==> s[i] == '_'
  {
    if s != [] && s[0] == '_' then
      var m := LeadingUnderscores(s[1..]);
      assert forall i :: 1 <= i < m + 1 ==> s[i] == s[1..][i - 1];
      m + 1
    else 0
  }

  /** How many "_" end the string. */
  function TrailingUnderscores(s: string): (n: nat)
    ensures n <= |s| && (n == |s| || s[|s| - n - 1] != '_')
    ensures forall i :: |s| - n <= i < |s| ==> s[i] == '_'
  {
    if s != [] && s[|s| - 1] == '_' then
      var m := TrailingUnderscores(s[..|s| - 1]);
      assert forall i :: |s| - 1 - m <= i < |s| - 1 ==> s[i] == s[..|s| - 1][i];
      m + 1
    else 0
  }

  /** `replace(/^_+/, "")`. */
  function StripLeading(s: string): string
  {
    s[LeadingUnderscores(s)..]
  }

  /** `replace(/_+$/, "")`. */
  function StripTrailing(s: string): string
  {
    s[..|s| - TrailingUnderscores(s)]
  }

  /** `makeSafeTitle`, and the same two replacements written inline in
      both PDF generators. */
  function SafeTitle(raw: string): string
  {
    StripTrailing(StripLeading(Collapse(raw)))
  }

  lemma UnderscoresOnlyNone(s: string)
    requires forall i :: 0 <= i < |s| ==> s[i] == '_'
    ensures Alnums(s) == []
  {
    AlnumsNone(s);
  }

  /** A slice of a string with only letters, digits and single "_" has
      only those too. */
  lemma SliceShape(c: string, a: nat, e: nat)
    requires a <= e <= |c| && SafeChars(c) && NoDoubleUnderscore(c)
    ensures SafeChars(c[a..e]) && NoDoubleUnderscore(c[a..e])
  {
    assert forall i :: 0 <= i < e - a ==> c[a..e][i] == c[a + i];
  }

  /** Stripping the ends removes only "_". */
  lemma StripKeepsAlnums(c: string)
    ensures Alnums(StripTrailing(StripLeading(c))) == Alnums(c)
  {
    StripLeadingKeeps(c);
    StripTrailingKeeps(StripLeading(c));
  }

  lemma StripLeadingKeeps(c: string)
    ensures Alnums(StripLeading(c)) == Alnums(c)
  {
    var a := LeadingUnderscores(c);
    assert c == c[..a] + c[a..];
    UnderscoresOnlyNone(c[..a]);
    AlnumsAppend(c[..a], c[a..]);
  }

  lemma StripTrailingKeeps(l: string)
    ensures Alnums(StripTrailing(l)) == Alnums(l)
  {
    var t := StripTrailing(l);
    assert l == t + l[|t|..];
    UnderscoresOnlyNone(l[|t|..]);
    AlnumsAppend(t, l[|t|..]);
  }

  /** Only letters, digits and single "_" between them. */
  predicate IsSafeTitle(t: string)
  {
    SafeChars(t) && NoDoubleUnderscore(t) && (t == [] || (t[0] != '_' && t[|t| - 1] != '_'))
  }

  /** Stripping the ends of a collapsed string leaves a safe title. */
  lemma StripShape(c: string)
    requires SafeChars(c) && NoDoubleUnderscore(c)
    ensures IsSafeTitle(StripTrailing(StripLeading(c)))
  {
    var a := LeadingUnderscores(c);
    var l := c[a..];
    var b := TrailingUnderscores(l);
    var t := l[..|l| - b];
    SliceShape(c, a, |c| - b);
    assert t == c[a..|c| - b];
    if t != [] {
      assert t[0] == c[a];
      assert t[|t| - 1] == l[|l| - b - 1];
    }
  }

  /** The title holds only letters, digits and "_", never starts or ends
      with "_", never has two "_" in a row, and keeps every letter and
      digit of the raw text in order. */
  lemma SafeTitleSpec(raw: string)
    ensures IsSafeTitle(SafeTitle(raw)) && Alnums(SafeTitle(raw)) == Alnums(raw)
  {
    CollapseShape(raw);
    CollapseKeepsAlnums(raw);
    StripKeepsAlnums(Collapse(raw));
    StripShape(Collapse(raw));
  }

  /** A title that is already safe is left as it is. */
  lemma {:induction false} CollapseClean(s: string)
    requires SafeChars(s) && NoDoubleUnderscore(s) && (s == [] || s[0] != '_' || |s| == 1 || IsAlnum(s[1]))
    ensures Collapse(s) == s
    decreases |s|
  {
    if s != [] {
      var t := s[1..];
      assert SafeChars(t) && NoDoubleUnderscore(t) by {
        assert forall i :: 0 <= i < |t| ==> t[i] == s[i + 1];
      }
      if t != [] && t[0] == '_' {
        assert IsAlnum(s[0]);
        assert |t| == 1 || IsAlnum(t[1]) by {
          if |t| > 1 {
            assert s[2] == t[1];
            assert !(s[1] == '_' && s[2] == '_');
          }
        }
      }
      if IsAlnum(s[0]) {
        CollapseClean(t);
      } else {
        assert DropRun(t) == t;
        CollapseClean(t);
      }
    }
  }

  /** Sanitising twice gives what sanitising once gives. */
  lemma SafeTitleIdempotent(raw: string)
    ensures SafeTitle(SafeTitle(raw)) == SafeTitle(raw)
  {
    var t := SafeTitle(raw);
    SafeTitleSpec(raw);
    CollapseClean(t);
  }

  // ---------------------------------------------------------------------
  // Titles and filenames

  /** `getPayPeriodById(id)?.label`, where an empty label counts as none. */
  function PeriodLabel(id: string): Option<string>
  {
    var p := PayPeriods.GetPayPeriodById(id);
    if p.Some? && p.value.Label() != "" then Some(p.value.Label()) else None
  }

  /** The text the title is made from: payee, " - ", period. */
  function RawTitle(name: string, period: string): string
  {
    name + " - " + period
  }

  /** The upload button's title: the label, or else the raw id. */
  function UploadTitle(data: PayStatementData): string
  {
    var id := data.payment.payPeriodId;
    var shown := PeriodLabel(id);
    SafeTitle(RawTitle(data.paidTo.name, if shown.Some? then shown.value else id))
  }

  /** A filename: a safe title followed by ".pdf". */
  predicate SafeFilename(f: string)
  {
    |f| >= 4 && f[|f| - 4..] == ".pdf" && IsSafeTitle(f[..|f| - 4])
  }

  /** The uploaded file's name: the upload title, safe, with ".pdf". */
  function UploadFilename(data: PayStatementData): (f: string)
    ensures SafeFilename(f) && f[..|f| - 4] == UploadTitle(data)
  {
    var id := data.payment.payPeriodId;
    var shown := PeriodLabel(id);
    SafeTitleSpec(RawTitle(data.paidTo.name, if shown.Some? then shown.value else id));
    assert (UploadTitle(data) + ".pdf")[..|UploadTitle(data)|] == UploadTitle(data);
    UploadTitle(data) + ".pdf"
  }

  /** Both PDF generators' title: the label, or else "Pay Period". */
  function PdfTitleOf(data: PayStatementData): string
  {
    var shown := PeriodLabel(data.payment.payPeriodId);
    SafeTitle(RawTitle(data.paidTo.name, if shown.Some? then shown.value else "Pay Period"))
  }

  /** The canvas generator saves the title with ".pdf". */
  function CanvasFilename(data: PayStatementData): (f: string)
    ensures SafeFilename(f) && f[..|f| - 4] == PdfTitleOf(data)
  {
    var shown := PeriodLabel(data.payment.payPeriodId);
    SafeTitleSpec(RawTitle(data.paidTo.name, if shown.Some? then shown.value else "Pay Period"));
    assert (PdfTitleOf(data) + ".pdf")[..|PdfTitleOf(data)|] == PdfTitleOf(data);
    PdfTitleOf(data) + ".pdf"
  }

  /** For a generated period the upload and the PDF titles agree; for an
      unknown id the upload falls back to the id and the PDF to "Pay
      Period". */
  lemma TitlesAgree(data: PayStatementData)
    ensures PeriodLabel(data.payment.payPeriodId).Some? ==> UploadTitle(data) == PdfTitleOf(data)
    ensures PeriodLabel(data.payment.payPeriodId).None? ==>
              UploadTitle(data) == SafeTitle(RawTitle(data.paidTo.name, data.payment.payPeriodId)) &&
              PdfTitleOf(data) == SafeTitle(RawTitle(data.paidTo.name, "Pay Period"))
  {
  }

  lemma UnknownLabel()
    ensures PeriodLabel("pp-999").None?
  {
    PayPeriods.UnknownIdNotFound();
  }

  lemma UnknownPeriodFallback(data: PayStatementData)
    requires data.payment.payPeriodId == "pp-999"
    ensures PdfTitleOf(data) == SafeTitle(RawTitle(data.paidTo.name, "Pay Period"))
    ensures UploadTitle(data) == SafeTitle(RawTitle(data.paidTo.name, "pp-999"))
  {
    UnknownLabel();
    TitlesAgree(data);
  }

  /** The contractor name sent with an upload: the payee, or "Contractor". */
  function UploadContractorName(data: PayStatementData): (n: string)
    ensures data.paidTo.name != "" ==> n == data.paidTo.name
    ensures data.paidTo.name == "" ==> n == "Contractor"
  {
    if data.paidTo.name != "" then data.paidTo.name else "Contractor"
  }

  // ---------------------------------------------------------------------
  // Page size

  /** `pxToPt`: 96 pixels to the inch, 72 points to the inch. */
  function PxToPt(px: real): real
  {
    px * 72.0 / 96.0
  }

  /** The canvas size in pixels for a page of the given inches at 96 dpi
      (`Math.round(inches * 96)`). */
  function CanvasPx(inches: real): int
  {
    JsNumber.Round(inches * 96.0)
  }

  /** The size in points at which the canvas image is placed at (0, 0). */
  function ImageSize(widthIn: real, heightIn: real): (real, real)
  {
    (PxToPt(CanvasPx(widthIn) as real), PxToPt(CanvasPx(heightIn) as real))
  }

  /** jsPDF's "letter" page in points: 8.5 x 11 inches at 72 points each. */
  const LetterPage: (real, real) := (612.0, 792.0)

  /** A canvas length that is a whole number of pixels converts back to
      the same length in points, so the image covers exactly the page
      whose size in inches it was made for. */
  lemma ImageFillsPage(widthIn: real, heightIn: real)
    requires (widthIn * 96.0).Floor as real == widthIn * 96.0
    requires (heightIn * 96.0).Floor as real == heightIn * 96.0
    ensures ImageSize(widthIn, heightIn) == (widthIn * 72.0, heightIn * 72.0)
  {
    WholePixels(widthIn);
    WholePixels(heightIn);
  }

  lemma WholePixels(inches: real)
    requires (inches * 96.0).Floor as real == inches * 96.0
    ensures CanvasPx(inches) as real == inches * 96.0
  {
    RoundWhole((inches * 96.0).Floor);
  }

  lemma RoundWhole(k: int)
    ensures JsNumber.Round(k as real) == k
  {
    assert (k as real + 0.5).Floor == k;
  }

  /** For the letter size the placed image is the whole letter page. */
  lemma PageSize()
    ensures CanvasPx(8.5) == 816 && CanvasPx(11.0) == 1056
    ensures ImageSize(8.5, 11.0) == LetterPage
  {
    ImageFillsPage(8.5, 11.0);
  }
}
