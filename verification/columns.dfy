/**
 * Columns#to_xml: the `<cols>` block of a worksheet, one `<col>` per option entry. A width
 * in characters c becomes Truncate((7c + 5) / 7 * 256) / 256, the column width formula
 * of ECMA-376 Part 1, section 18.3.1.13, for a maximum digit width of 7 pixels.
 */
module Columns {
  import opened Wrappers
  import opened Text
  import Calendar

  /** One entry of the option array: `:width_chars` (an Integer) and `:width_pixels` (any object, by its text). */
  datatype ColumnOptions = ColumnOptions(widthChars: Option<int>, widthPixels: Option<string>)

  /**
   * The width in 256ths: `((c * 7.0 + 5) / 7 * 256).truncate`. The exact quotient is
   * never within 1/7 of an integer, so the floating-point steps truncate as exact
   * rational arithmetic does, towards zero.
   */
  function WidthNumerator(c: int): (w: int)
    ensures 256 * c < w < 256 * c + 256
  {
    var q := 256 * (7 * c + 5);
    if q >= 0 then q / 7 else -((-q) / 7)
  }

  /** In closed form: 182/256 above c for c >= 0, and 183/256 above c for negative c (truncation towards zero). */
  lemma WidthNumeratorClosed(c: int)
    ensures WidthNumerator(c) == if c >= 0 then 256 * c + 182 else 256 * c + 183
  {
  }

  /** s without its trailing zeros. */
  function TrimZeros(s: string): (r: string)
    ensures |r| <= |s| && r == s[..|r|]
    ensures |r| > 0 ==> r[|r| - 1] != '0'
    ensures forall i | |r| <= i < |s| :: s[i] == '0'
    decreases |s|
  {
    if |s| > 0 && s[|s| - 1] == '0' then TrimZeros(s[..|s| - 1]) else s
  }

  /** The decimal digits of f/256 after the point: at most eight, none trailing zero, "0" for none. */
  function FractionDigits(f: nat): (r: string)
    requires f < 256
  {
    if f == 0 then "0" else TrimZeros(Calendar.Fixed(f * 390625, 8))
  }

  /**
   * Float#to_s of w / 256.0: the exact decimal expansion, which is the shortest text
   * naming that double while |w| / 256 stays well below 10^13.
   */
  function WidthText(w: int): string
  {
    var m := if w < 0 then -w else w;
    (if w < 0 then "-" else "") + NatToString(m / 256) + "." + FractionDigits(m % 256)
  }

  lemma DigitsOf182(f: nat)
    requires f == 182
    ensures Calendar.Fixed(f * 390625, 8) == "71093750"
  {
    assert f * 390625 == 71093750;
    assert Calendar.Fixed(7, 1) == "7";
    assert Calendar.Fixed(71, 2) == "71";
    assert Calendar.Fixed(710, 3) == "710";
    assert Calendar.Fixed(7109, 4) == "7109";
    assert Calendar.Fixed(71093, 5) == "71093";
    assert Calendar.Fixed(710937, 6) == "710937";
    assert Calendar.Fixed(7109375, 7) == "7109375";
    assert Calendar.Fixed(71093750, 8) == "71093750";
  }

  lemma TrimOf182(s: string)
    requires s == "71093750"
    ensures TrimZeros(s) == "7109375"
  {
    assert TrimZeros(s) == TrimZeros(s[..7]);
    assert s[..7] == "7109375";
  }

  lemma FractionOf182(f: nat)
    requires f == 182
    ensures FractionDigits(f) == "7109375"
  {
    DigitsOf182(f);
    TrimOf182(Calendar.Fixed(f * 390625, 8));
  }

  lemma FractionOf73(f: nat)
    requires f == 73
    ensures FractionDigits(f) == "28515625"
  {
    assert f * 390625 == 28515625;
    assert Calendar.Fixed(2, 1) == "2";
    assert Calendar.Fixed(28, 2) == "28";
    assert Calendar.Fixed(285, 3) == "285";
    assert Calendar.Fixed(2851, 4) == "2851";
    assert Calendar.Fixed(28515, 5) == "28515";
    assert Calendar.Fixed(285156, 6) == "285156";
    assert Calendar.Fixed(2851562, 7) == "2851562";
    assert Calendar.Fixed(28515625, 8) == "28515625";
  }

  lemma DivMod256(m: nat, q: nat, f: nat)
    requires f < 256 && m == 256 * q + f
    ensures m / 256 == q && m % 256 == f
  {
  }

  lemma WidthTextParts(w: int, q: nat, f: nat)
    requires f < 256 && (w >= 0 ==> w == 256 * q + f) && (w < 0 ==> -w == 256 * q + f)
    ensures WidthText(w) == (if w < 0 then "-" else "") + NatToString(q) + "." + FractionDigits(f)
  {
    DivMod256(if w < 0 then -w else w, q, f);
  }

  /** The width of c >= 0 characters prints as c.7109375. */
  lemma WidthTextNonNegative(c: int)
    requires c >= 0
    ensures WidthText(WidthNumerator(c)) == NatToString(c) + "." + "7109375"
  {
    WidthNumeratorClosed(c);
    var w := WidthNumerator(c);
    var f := w - 256 * c;
    WidthTextParts(w, c, f);
    FractionOf182(f);
    assert "" + NatToString(c) == NatToString(c);
  }

  /** The width of c < 0 characters prints as -(|c| - 1).28515625: truncation goes towards zero. */
  lemma WidthTextNegative(c: int)
    requires c < 0
    ensures WidthText(WidthNumerator(c)) == "-" + NatToString(-c - 1) + "." + "28515625"
  {
    WidthNumeratorClosed(c);
    var w := WidthNumerator(c);
    var f := -w - 256 * (-c - 1);
    assert w < 0 && f == 73;
    WidthTextParts(w, -c - 1, f);
    FractionOf73(f);
  }

  /** The printed width is exact: its digits times 256 give back the numerator. */
  lemma WidthTextExact(c: int)
    ensures c >= 0 ==> WidthNumerator(c) * 10000000 == 256 * (c * 10000000 + 7109375)
    ensures c < 0 ==> WidthNumerator(c) * 100000000 == -256 * ((-c - 1) * 100000000 + 28515625)
  {
    WidthNumeratorClosed(c);
  }

  /** A width of c >= 0 characters printed, from the digits of c. */
  lemma WidthOfDigits(c: int, digits: string)
    requires c >= 0 && NatToString(c) == digits
    ensures WidthText(WidthNumerator(c)) == digits + ".7109375"
  {
    WidthTextNonNegative(c);
    assert "." + "7109375" == ".7109375";
    Regroup(digits, ".", "7109375");
  }

  /** The formula's own example: 8 characters are 8.7109375 wide. */
  lemma WidthOfEight(c: int, s: string)
    requires c == 8 && s == "8.7109375"
    ensures WidthText(WidthNumerator(c)) == s
  {
    assert NatToString(c) == "8";
    assert s == "8" + ".7109375";
    WidthOfDigits(c, "8");
  }

  /** 14 characters are 14.7109375 wide. */
  lemma WidthOfFourteen(c: int, s: string)
    requires c == 14 && s == "14.7109375"
    ensures WidthText(WidthNumerator(c)) == s
  {
    assert NatToString(c) == NatToString(1) + [DigitChar(4)];
    assert s == "14" + ".7109375";
    WidthOfDigits(c, "14");
  }

  function ColOpen(i: nat): string
  {
    "<col min=\"" + NatToString(i + 1) + "\" max=\"" + NatToString(i + 1) + "\""
  }

  /** The `<col>` of the i-th entry (from 0). */
  function ColXml(i: nat, o: ColumnOptions): (r: string)
    ensures o.widthChars.None? && o.widthPixels.None? ==> r == ColOpen(i) + "/>"
  {
    if o.widthChars.None? && o.widthPixels.None? then ColOpen(i) + "/>"
    else
      var width := if o.widthPixels.Some? then o.widthPixels.value else WidthText(WidthNumerator(o.widthChars.value));
      ColOpen(i) + " width=\"" + width + "\" customWidth=\"1\"/>"
  }

  /** A width, with customWidth="1", is written exactly when one of the two keys is given. */
  lemma CustomWidthIffWidth(i: nat, o: ColumnOptions)
    ensures (o.widthChars.None? && o.widthPixels.None?) <==> ColXml(i, o) == ColOpen(i) + "/>"
  {
    if !(o.widthChars.None? && o.widthPixels.None?) {
      var r := ColXml(i, o);
      assert r[|ColOpen(i)|] == ' ';
      assert (ColOpen(i) + "/>")[|ColOpen(i)|] == '/';
    }
  }

  /** width_pixels overrides width_chars: the characters then play no part. */
  lemma PixelsOverride(i: nat, o: ColumnOptions)
    requires o.widthPixels.Some?
    ensures ColXml(i, o) == ColXml(i, ColumnOptions(None, o.widthPixels))
    ensures ColXml(i, o) == ColOpen(i) + " width=\"" + o.widthPixels.value + "\" customWidth=\"1\"/>"
  {
  }

  function ColEntries(cols: seq<ColumnOptions>): (r: seq<string>)
    ensures |r| == |cols|
  {
    seq(|cols|, i requires 0 <= i < |cols| => ColXml(i, cols[i]))
  }

  /** Columns#to_xml. */
  function ColsXml(cols: seq<ColumnOptions>): string
  {
    "<cols>" + Join(ColEntries(cols)) + "</cols>"
  }

  /** Adding an entry appends its `<col>`, numbered after all earlier ones. */
  lemma ColsAppend(cols: seq<ColumnOptions>, o: ColumnOptions)
    ensures ColsXml(cols + [o]) == "<cols>" + Join(ColEntries(cols)) + ColXml(|cols|, o) + "</cols>"
  {
    assert ColEntries(cols + [o]) == ColEntries(cols) + [ColXml(|cols|, o)];
    JoinAppend(ColEntries(cols), [ColXml(|cols|, o)]);
    assert Join([ColXml(|cols|, o)]) == Join([]) + ColXml(|cols|, o);
  }
}
