/**
 * Row#to_xml: one `<row>` element whose cells are encoded by value type, with optional
 * auto-formatting of text and optional shared strings.
 */
module Rows {
  import opened Wrappers
  import opened Text
  import opened Calendar
  import opened Values
  import opened Succ
  import Xml
  import SharedStrings

  const DateStyle: nat := 1
  const TimeStyle: nat := 2

  // ---- the auto-format patterns ----

  /** The number of leading decimal digits of s. */
  function LeadingDigits(s: string): (k: nat)
    ensures k <= |s|
    ensures AllDigits(s[..k])
    ensures k < |s| ==> !IsDigit(s[k])
    decreases |s|
  {
    if |s| == 0 || !IsDigit(s[0]) then 0
    else
      var k := 1 + LeadingDigits(s[1..]);
      assert s[..k] == [s[0]] + s[1..][..k - 1];
      k
  }

  /** Digits, optionally followed by '.' and more digits. */
  predicate IsUnsignedNumber(b: string)
  {
    var k := LeadingDigits(b);
    k >= 1 && (k == |b| || (b[k] == '.' && k + 1 < |b| && AllDigits(b[k + 1..])))
  }

  /** NUMBER_PATTERN: an optional minus sign, digits, an optional fraction. */
  predicate IsNumberText(s: string)
  {
    if |s| > 0 && s[0] == '-' then IsUnsignedNumber(s[1..]) else IsUnsignedNumber(s)
  }

  /** The zone suffix TIME_PATTERN allows: none, Z, or a sign and hh:mm. */
  predicate IsZone(z: string)
  {
    |z| == 0 || z == "Z"
    || (|z| == 6 && (z[0] == '+' || z[0] == '-') && AllDigits(z[1..3]) && z[3] == ':' && AllDigits(z[4..]))
  }

  /** After the seconds: an optional fraction of one to nine digits, then the zone. */
  predicate IsFractionAndZone(t: string)
  {
    IsZone(t)
    || (|t| > 0 && t[0] == '.' && 1 <= LeadingDigits(t[1..]) <= 9 && IsZone(t[1 + LeadingDigits(t[1..])..]))
  }

  /** After hh:mm: optional seconds (with their fraction), then the zone. */
  predicate IsSecondsAndZone(t: string)
  {
    IsZone(t) || (|t| >= 3 && t[0] == ':' && AllDigits(t[1..3]) && IsFractionAndZone(t[3..]))
  }

  /** TIME_PATTERN: yyyy-mm-ddThh:mm, optional :ss and fraction, optional zone. */
  predicate IsTimeText(s: string)
  {
    |s| >= 16 && IsDateText(s[..10]) && s[10] == 'T'
    && AllDigits(s[11..13]) && s[13] == ':' && AllDigits(s[14..16])
    && IsSecondsAndZone(s[16..])
  }

  /** LeadingDigits stops at the first character that is not a digit. */
  lemma LeadingDigitsAt(s: string, k: nat)
    requires k < |s| && AllDigits(s[..k]) && !IsDigit(s[k])
    ensures LeadingDigits(s) == k
  {
    assert forall i | 0 <= i < k :: IsDigit(s[i]) by {
      assert forall i | 0 <= i < k :: s[i] == s[..k][i];
    }
    var d := LeadingDigits(s);
    assert forall i | 0 <= i < d :: IsDigit(s[i]) by {
      assert forall i | 0 <= i < d :: s[i] == s[..d][i];
    }
  }

  lemma IntegerNumber(s: string)
    requires IsNumberText(s) && '.' !in s
    ensures IsIntegerText(s)
  {
    var b := if |s| > 0 && s[0] == '-' then s[1..] else s;
    assert forall j | 0 <= j < |b| :: b[j] != '.' by {
      assert forall j | 0 <= j < |b| :: b[j] in s by {
        if |s| > 0 && s[0] == '-' {
          assert forall j | 0 <= j < |b| :: b[j] == s[j + 1];
        }
      }
    }
    assert b == b[..LeadingDigits(b)];
  }

  /** Row#auto_format: numbers become Integers or Floats, dates Dates, date-times DateTimes; other text stays. */
  function AutoFormat(rt: Runtime, s: string): (r: Result<Value>)
    ensures r.Err? ==> r.error == InvalidDate(s) || r.error == UnparsableDateTime(s)
    ensures r.Ok? && r.value.Str? ==> r.value.s == s
  {
    if IsNumberText(s) then
      if '.' in s then Ok(Float(s))
      else
        IntegerNumber(s);
        Ok(Int(ParseInteger(s)))
    else if IsDateText(s) then
      var d :- ParseIsoDate(s);
      Ok(Date(d))
    else if IsTimeText(s) then
      if rt.dateTimeParses(s) then Ok(DateTime(s)) else Err(UnparsableDateTime(s))
    else Ok(Str(s))
  }

  /** A text that starts with four digits and a dash is not a number. */
  lemma DashAtFour(s: string)
    requires |s| >= 5 && AllDigits(s[..4]) && s[4] == '-'
    ensures !IsNumberText(s)
  {
    assert IsDigit(s[..4][0]);
    LeadingDigitsAt(s, 4);
  }

  /** No text matches two of the three patterns. */
  lemma PatternsExclusive(s: string)
    ensures !(IsNumberText(s) && IsDateText(s))
    ensures !(IsNumberText(s) && IsTimeText(s))
    ensures !(IsDateText(s) && IsTimeText(s))
  {
    if IsDateText(s) {
      DashAtFour(s);
    }
    if IsTimeText(s) {
      assert s[..10][..4] == s[..4];
      DashAtFour(s);
    }
  }

  /** A number text reads as the Integer it denotes: every Integer's decimal form comes back. */
  lemma AutoFormatInteger(rt: Runtime, i: int)
    ensures AutoFormat(rt, IntToString(i)) == Ok(Int(i))
  {
    var s := IntToString(i);
    IntegerRoundTrip(i);
    assert '.' !in s by {
      assert forall j | 0 <= j < |s| && (j > 0 || s[0] != '-') :: IsDigit(s[j]) by {
        if i < 0 {
          assert forall j | 1 <= j < |s| :: s[j] == s[1..][j - 1];
        }
      }
    }
    assert LeadingDigits(if i < 0 then s[1..] else s) == |if i < 0 then s[1..] else s| by {
      NumberTextDigits(if i < 0 then s[1..] else s);
    }
  }

  lemma {:induction false} NumberTextDigits(b: string)
    requires AllDigits(b)
    ensures LeadingDigits(b) == |b|
    decreases |b|
  {
    if |b| > 0 {
      NumberTextDigits(b[1..]);
    }
  }

  /** Text a date prints as auto-formats to that date. */
  lemma AutoFormatDate(rt: Runtime, d: Day)
    requires 0 <= d.year <= 9999
    ensures AutoFormat(rt, DateText(d)) == Ok(Date(d))
  {
    DateTextRoundTrip(d);
    PatternsExclusive(DateText(d));
  }

  /** Text matching no pattern stays the same string, e.g. 1900-01-01T12 with no minutes. */
  lemma AutoFormatPlain(rt: Runtime, s: string)
    requires !IsNumberText(s) && !IsDateText(s) && !IsTimeText(s)
    ensures AutoFormat(rt, s) == Ok(Str(s))
  {
  }

  lemma HourOnlyIsText(s: string)
    requires s == "1900-01-01T12"
    ensures !IsNumberText(s) && !IsDateText(s) && !IsTimeText(s)
  {
    assert s[..4] == "1900";
    DashAtFour(s);
  }

  // ---- cells ----

  /** The reference of the k-th value (from 0) in row n: its column letters, then n. */
  function CellRef(k: nat, n: nat): string
  {
    Column(k) + NatToString(n)
  }

  function NumberCell(cid: string, text: string): string
  {
    "<c r=\"" + cid + "\" t=\"n\"><v>" + text + "</v></c>"
  }

  function StyledCell(cid: string, style: nat, serial: string): string
  {
    "<c r=\"" + cid + "\" s=\"" + NatToString(style) + "\"><v>" + serial + "</v></c>"
  }

  function SharedCell(cid: string, id: nat): string
  {
    "<c r=\"" + cid + "\" t=\"s\"><v>" + NatToString(id) + "</v></c>"
  }

  /** An inline string cell; its text goes through XML.escape_value as written. */
  function InlineCell(cid: string, text: string): string
  {
    "<c r=\"" + cid + "\" t=\"inlineStr\"><is><t>" + Xml.EscapeValue(text) + "</t></is></c>"
  }

  /** A cell's markup together with the shared string table it leaves behind. */
  datatype Encoded = Encoded(xml: string, sst: Option<SharedStrings.Table>)

  /** A stringified value: nothing for the empty text, else a shared-string or an inline cell. */
  function TextCell(cid: string, text: string, sst: Option<SharedStrings.Table>): (r: Encoded)
    ensures text == "" ==> r == Encoded("", sst)
    ensures text != "" && sst.None? ==> r == Encoded(InlineCell(cid, text), None)
    ensures text != "" && sst.Some? ==>
      var (t, id) := SharedStrings.Lookup(sst.value, text);
      r == Encoded(SharedCell(cid, id), Some(t)) && t.strings[id] == text
  {
    if text == "" then Encoded("", sst)
    else if sst.Some? then
      var (t, id) := SharedStrings.Lookup(sst.value, text);
      Encoded(SharedCell(cid, id), Some(t))
    else Encoded(InlineCell(cid, text), None)
  }

  /** The `case value` dispatch of Row#to_xml, after auto-formatting. */
  function EncodeValue(rt: Runtime, cid: string, v: Value, sst: Option<SharedStrings.Table>): (r: Encoded)
    ensures !v.IsTextual() ==> r.sst == sst
    ensures v.IsNumeric() ==> r == Encoded(NumberCell(cid, NumberText(rt, v)), sst)
  {
    match v
    case Int(_) => Encoded(NumberCell(cid, NumberText(rt, v)), sst)
    case Float(_) => Encoded(NumberCell(cid, NumberText(rt, v)), sst)
    case Number(_) => Encoded(NumberCell(cid, NumberText(rt, v)), sst)
    case Time(stamp) => Encoded(StyledCell(cid, TimeStyle, rt.rowTimeSerial(stamp)), sst)
    case DateTime(stamp) => Encoded(StyledCell(cid, TimeStyle, rt.rowDateTimeSerial(stamp)), sst)
    case Date(d) => Encoded(StyledCell(cid, DateStyle, WholeFloatText(EpochSerial(d))), sst)
    case _ => TextCell(cid, ToS(v), sst)
  }

  /** The value a cell shows: a String auto-formatted when auto_format is on, any other value itself. */
  function Shown(rt: Runtime, v: Value, autoFormat: bool): (r: Result<Value>)
    ensures r.Err? ==> autoFormat && v.Str?
    ensures !(autoFormat && v.Str?) ==> r == Ok(v)
  {
    if autoFormat && v.Str? then AutoFormat(rt, v.s) else Ok(v)
  }

  /** One value of the row at reference cid. */
  function EncodeCell(rt: Runtime, cid: string, v: Value, sst: Option<SharedStrings.Table>, autoFormat: bool): (r: Result<Encoded>)
    ensures r.Err? <==> Shown(rt, v, autoFormat).Err?
  {
    var w :- Shown(rt, v, autoFormat);
    Ok(EncodeValue(rt, cid, w, sst))
  }

  /** The cells of a row, the k-th value at column Column(k). */
  function Cells(rt: Runtime, values: seq<Value>, n: nat, sst: Option<SharedStrings.Table>, autoFormat: bool): (r: Result<Encoded>)
    ensures r.Ok? ==> (r.value.sst.Some? <==> sst.Some?)
    decreases |values|
  {
    if |values| == 0 then Ok(Encoded("", sst))
    else
      var k := |values| - 1;
      var before :- Cells(rt, values[..k], n, sst, autoFormat);
      var cell :- EncodeCell(rt, CellRef(k, n), values[k], before.sst, autoFormat);
      Ok(Encoded(before.xml + cell.xml, cell.sst))
  }

  function RowOpen(n: nat): string
  {
    "<row r=\"" + NatToString(n) + "\">"
  }

  /** Row#to_xml for row number n. */
  function RowXml(rt: Runtime, values: seq<Value>, n: nat, sst: Option<SharedStrings.Table>, autoFormat: bool): (r: Result<Encoded>)
    ensures r.Ok? ==> exists cells :: r.value.xml == RowOpen(n) + cells + "</row>"
    ensures r.Ok? ==> (r.value.sst.Some? <==> sst.Some?)
  {
    var cells :- Cells(rt, values, n, sst, autoFormat);
    Ok(Encoded(RowOpen(n) + cells.xml + "</row>", cells.sst))
  }

  // ---- properties of whole rows ----

  /** The markup of the k-th value of row n when no table is given. */
  function Fragment(rt: Runtime, k: nat, n: nat, v: Value): string
  {
    EncodeValue(rt, CellRef(k, n), v, None).xml
  }

  function Fragments(rt: Runtime, values: seq<Value>, n: nat): (r: seq<string>)
    ensures |r| == |values|
  {
    seq(|values|, k requires 0 <= k < |values| => Fragment(rt, k, n, values[k]))
  }

  /**
   * Without a table and without auto-format a row is the concatenation of its values'
   * cells, each encoded on its own at its own column.
   */
  lemma {:induction false} CellsInline(rt: Runtime, values: seq<Value>, n: nat)
    ensures Cells(rt, values, n, None, false) == Ok(Encoded(Join(Fragments(rt, values, n)), None))
    decreases |values|
  {
    if |values| > 0 {
      var k := |values| - 1;
      CellsInline(rt, values[..k], n);
      assert Fragments(rt, values, n)[..k] == Fragments(rt, values[..k], n);
    }
  }

  /** Row#to_xml without a table and without auto-format. */
  lemma RowInline(rt: Runtime, values: seq<Value>, n: nat)
    ensures RowXml(rt, values, n, None, false)
         == Ok(Encoded(RowOpen(n) + Join(Fragments(rt, values, n)) + "</row>", None))
  {
    CellsInline(rt, values, n);
  }

  /** Some value of the row fails to auto-format. */
  predicate SomeFails(rt: Runtime, values: seq<Value>, autoFormat: bool)
  {
    exists k | 0 <= k < |values| :: Fails(rt, values[k], autoFormat)
  }

  predicate Fails(rt: Runtime, v: Value, autoFormat: bool)
  {
    Shown(rt, v, autoFormat).Err?
  }

  lemma SomeFailsSnoc(rt: Runtime, values: seq<Value>, autoFormat: bool)
    requires |values| > 0
    ensures SomeFails(rt, values, autoFormat)
        <==> SomeFails(rt, values[..|values| - 1], autoFormat) || Fails(rt, values[|values| - 1], autoFormat)
  {
    var k := |values| - 1;
    assert forall j | 0 <= j < k :: values[..k][j] == values[j];
  }

  lemma CellsStep(rt: Runtime, values: seq<Value>, n: nat, sst: Option<SharedStrings.Table>, autoFormat: bool)
    requires |values| > 0
    ensures var k := |values| - 1;
      var before := Cells(rt, values[..k], n, sst, autoFormat);
      var failed := Cells(rt, values, n, sst, autoFormat).Err?;
      failed <==> before.Err? || EncodeCell(rt, CellRef(k, n), values[k], before.value.sst, autoFormat).Err?
  {
  }

  /** A row fails exactly when the auto-format of one of its values fails. */
  lemma {:induction false} CellsFail(rt: Runtime, values: seq<Value>, n: nat, sst: Option<SharedStrings.Table>, autoFormat: bool)
    ensures Cells(rt, values, n, sst, autoFormat).Err? <==> SomeFails(rt, values, autoFormat)
    decreases |values|
  {
    if |values| > 0 {
      var k := |values| - 1;
      CellsFail(rt, values[..k], n, sst, autoFormat);
      SomeFailsSnoc(rt, values, autoFormat);
      CellsStep(rt, values, n, sst, autoFormat);
    }
  }

  /** The text a shown value puts in the shared string table, or "" for none. */
  function SharedText(w: Value): string
  {
    if w.IsTextual() then ToS(w) else ""
  }

  /** The strings a row looks up in the table, in column order. */
  function SharedTexts(rt: Runtime, values: seq<Value>, autoFormat: bool): seq<string>
    decreases |values|
  {
    if |values| == 0 then []
    else
      var k := |values| - 1;
      var last := match Shown(rt, values[k], autoFormat)
        case Ok(w) => if SharedText(w) != "" then [SharedText(w)] else []
        case Err(_) => [];
      SharedTexts(rt, values[..k], autoFormat) + last
  }

  /** A row that succeeds extends the cells of its prefix by the cell of its last value. */
  lemma CellsOkStep(rt: Runtime, values: seq<Value>, n: nat, sst: Option<SharedStrings.Table>, autoFormat: bool)
    requires |values| > 0 && Cells(rt, values, n, sst, autoFormat).Ok?
    ensures var k := |values| - 1;
      var before := Cells(rt, values[..k], n, sst, autoFormat);
      var shown := Shown(rt, values[k], autoFormat);
      before.Ok? && shown.Ok?
      && var cell := EncodeValue(rt, CellRef(k, n), shown.value, before.value.sst);
      Cells(rt, values, n, sst, autoFormat).value == Encoded(before.value.xml + cell.xml, cell.sst)
  {
  }

  /** A shown value looks up its text when it has one and leaves the table alone otherwise. */
  lemma EncodeValueTable(rt: Runtime, cid: string, w: Value, t: SharedStrings.Table)
    ensures EncodeValue(rt, cid, w, Some(t)).sst
         == Some(if SharedText(w) != "" then SharedStrings.Lookup(t, SharedText(w)).0 else t)
  {
  }

  /** With a table, a row looks up exactly its non-empty texts, left to right, once each. */
  lemma {:induction false} CellsSharedStrings(rt: Runtime, values: seq<Value>, n: nat, t: SharedStrings.Table, autoFormat: bool)
    requires Cells(rt, values, n, Some(t), autoFormat).Ok?
    ensures Cells(rt, values, n, Some(t), autoFormat).value.sst
         == Some(SharedStrings.LookupAll(t, SharedTexts(rt, values, autoFormat)))
    decreases |values|
  {
    if |values| > 0 {
      var k := |values| - 1;
      var xs := SharedTexts(rt, values[..k], autoFormat);
      CellsOkStep(rt, values, n, Some(t), autoFormat);
      CellsSharedStrings(rt, values[..k], n, t, autoFormat);
      var w := Shown(rt, values[k], autoFormat).value;
      var before := SharedStrings.LookupAll(t, xs);
      EncodeValueTable(rt, CellRef(k, n), w, before);
      if SharedText(w) != "" {
        SharedStrings.LookupAllSnoc(t, xs, SharedText(w));
        assert SharedTexts(rt, values, autoFormat) == xs + [SharedText(w)];
      } else {
        assert SharedTexts(rt, values, autoFormat) == xs;
      }
    }
  }

  /** The date 1900-01-01 in cell A1 is date-styled with serial 2.0. */
  lemma DateCell(rt: Runtime, d: Day)
    requires d == CivilDate(1900, 1, 1)
    ensures Fragment(rt, 0, 1, Date(d)) == "<c r=\"A1\" s=\"1\"><v>2.0</v></c>"
  {
    SerialOf1900(d);
    assert CellRef(0, 1) == "A1";
    assert WholeFloatText(2) == "2.0";
    assert NatToString(1) == "1";
  }

  /** Row 1 holding the date 1900-01-01 is the date-styled cell A1 with serial 2.0. */
  lemma DateRow(rt: Runtime, d: Day, cell: string)
    requires d == CivilDate(1900, 1, 1) && cell == "<c r=\"A1\" s=\"1\"><v>2.0</v></c>"
    ensures RowXml(rt, [Date(d)], 1, None, false) == Ok(Encoded("<row r=\"1\">" + cell + "</row>", None))
  {
    RowInline(rt, [Date(d)], 1);
    DateCell(rt, d);
    var f := Fragments(rt, [Date(d)], 1);
    assert f == [cell] by {
      assert f[0] == Fragment(rt, 0, 1, Date(d));
    }
    JoinOne(cell);
    RowOpenOne();
  }

  lemma RowOpenOne()
    ensures RowOpen(1) == "<row r=\"1\">"
  {
    assert NatToString(1) == "1";
  }

  /** A row of nothing but nil is an empty row element. */
  lemma NilRow(rt: Runtime)
    ensures RowXml(rt, [Nil], 1, None, false) == Ok(Encoded("<row r=\"1\"></row>", None))
  {
    RowInline(rt, [Nil], 1);
    var f := Fragments(rt, [Nil], 1);
    assert f == [""] by {
      assert f[0] == Fragment(rt, 0, 1, Nil) == "";
    }
    JoinOne("");
    RowOpenOne();
    EmptyRowJoined();
  }

  lemma EmptyRowJoined()
    ensures "<row r=\"1\">" + "" + "</row>" == "<row r=\"1\"></row>"
  {
  }
}
