/**
 * Xlsxtream::Worksheet: writes the worksheet part into the sink's current entry, a header
 * on construction, one `<row>` per `<<` numbered from 1, and a footer on `close`.
 */
module Worksheets {
  import opened Wrappers
  import opened Text
  import opened Sinks
  import opened Values
  import Xml
  import SharedStrings
  import Columns
  import Rows

  const WorksheetOpen: string := "<worksheet xmlns=\"http://schemas.openxmlformats.org/spreadsheetml/2006/main\">"
  const SheetDataOpen: string := "<sheetData>"
  const Footer: string := "</sheetData></worksheet>"

  /**
   * The options a worksheet reads: `:columns` (None when it is not an Array), the shared
   * string table given as `:sst` (nil: inline strings) and the truthiness of `:auto_format`.
   */
  datatype SheetOptions = SheetOptions(columns: Option<seq<Columns.ColumnOptions>>, sst: Option<SharedStrings.Table>, autoFormat: bool)

  /** The sink's log so far, the number the next row gets, and the options (with the table as it now is). */
  datatype Worksheet = Worksheet(log: Log, rownum: nat, options: SheetOptions)

  /** What the constructor writes, one `<<` per text. */
  function HeaderTexts(columns: Option<seq<Columns.ColumnOptions>>): seq<string>
  {
    [Xml.Header, WorksheetOpen] + (if columns.Some? then [Columns.ColsXml(columns.value)] else []) + [SheetDataOpen]
  }

  /** The header's text: declaration, `<worksheet>`, the cols block exactly when columns are given, `<sheetData>`. */
  lemma HeaderText(columns: Option<seq<Columns.ColumnOptions>>)
    ensures columns.None? ==> Join(HeaderTexts(columns)) == Xml.Header + WorksheetOpen + SheetDataOpen
    ensures columns.Some? ==>
              Join(HeaderTexts(columns)) == Xml.Header + WorksheetOpen + Columns.ColsXml(columns.value) + SheetDataOpen
  {
    if columns.Some? {
      var c := Columns.ColsXml(columns.value);
      assert HeaderTexts(columns) == [Xml.Header, WorksheetOpen, c, SheetDataOpen];
      JoinFour(Xml.Header, WorksheetOpen, c, SheetDataOpen);
    } else {
      assert HeaderTexts(columns) == [Xml.Header, WorksheetOpen, SheetDataOpen];
      JoinThree(Xml.Header, WorksheetOpen, SheetDataOpen);
    }
  }

  /** `Worksheet.new(io, options)`: the header goes out at once and the row counter starts at 1. */
  function NewWorksheet(log: Log, options: SheetOptions): (w: Worksheet)
    ensures w.rownum == 1 && w.options == options
    ensures w.log == log + Appends(HeaderTexts(options.columns))
  {
    Worksheet(log + Appends(HeaderTexts(options.columns)), 1, options)
  }

  /** What construction does to the sink: the joined header joins the current part, and no part is opened. */
  lemma NewWorksheetMeaning(log: Log, options: SheetOptions)
    ensures Entries(NewWorksheet(log, options).log) == Extend(Entries(log), Join(HeaderTexts(options.columns)))
    ensures Paths(NewWorksheet(log, options).log) == Paths(log)
  {
    EntriesAppends(log, HeaderTexts(options.columns));
    PathsAppends(log, HeaderTexts(options.columns));
  }

  /**
   * Row#to_xml with the runtime and the `auto_format` option fixed: the row's values, its
   * number and the shared string table in; its markup and the table after it out.
   */
  type RowEncoder = (seq<Value>, nat, Option<SharedStrings.Table>) -> Result<Rows.Encoded>

  function Encoder(rt: Runtime, autoFormat: bool): RowEncoder
  {
    (values: seq<Value>, n: nat, sst: Option<SharedStrings.Table>) => Rows.RowXml(rt, values, n, sst, autoFormat)
  }

  /** A row's markup for row number n: `<row r="n">`, its cells, `</row>`. */
  predicate IsRow(t: string, n: nat)
  {
    |Rows.RowOpen(n)| + 6 <= |t| && t[..|Rows.RowOpen(n)|] == Rows.RowOpen(n) && t[|t| - 6..] == "</row>"
  }

  /** What a row encoding promises: a `<row>` under the row's number, and a table exactly when one went in. */
  ghost predicate EncodesRows(enc: RowEncoder)
  {
    forall values, n, sst | enc(values, n, sst).Ok? ::
      IsRow(enc(values, n, sst).value.xml, n) && (enc(values, n, sst).value.sst.Some? <==> sst.Some?)
  }

  /** Row#to_xml keeps that promise. */
  lemma EncoderRows(rt: Runtime, autoFormat: bool)
    ensures EncodesRows(Encoder(rt, autoFormat))
  {
    var enc := Encoder(rt, autoFormat);
    forall values, n, sst | enc(values, n, sst).Ok?
      ensures IsRow(enc(values, n, sst).value.xml, n) && (enc(values, n, sst).value.sst.Some? <==> sst.Some?)
    {
      var r := Rows.RowXml(rt, values, n, sst, autoFormat);
      assert enc(values, n, sst) == r;
      RowShape(r.value.xml, n);
    }
  }

  lemma RowShape(t: string, n: nat)
    requires exists cells :: t == Rows.RowOpen(n) + cells + "</row>"
    ensures IsRow(t, n)
  {
    var cells :| t == Rows.RowOpen(n) + cells + "</row>";
    assert t[..|Rows.RowOpen(n)|] == Rows.RowOpen(n);
    assert t[|t| - 6..] == "</row>";
  }

  /** `<<` / `add_row` with the row encoding given: write the row's markup and count on. */
  function AddRowWith(enc: RowEncoder, w: Worksheet, values: seq<Value>): (r: Result<Worksheet>)
    ensures enc(values, w.rownum, w.options.sst).Err? <==> r.Err?
    ensures r.Ok? ==> r.value.log == w.log + [Append(enc(values, w.rownum, w.options.sst).value.xml)]
    ensures r.Ok? ==> r.value.rownum == w.rownum + 1
    ensures r.Ok? ==> r.value.options == w.options.(sst := enc(values, w.rownum, w.options.sst).value.sst)
  {
    var e :- enc(values, w.rownum, w.options.sst);
    Ok(Worksheet(w.log + [Append(e.xml)], w.rownum + 1, w.options.(sst := e.sst)))
  }

  /**
   * What `<<` does to the sink: the row's markup joins the current part and no part is
   * opened; under an encoding that keeps the row promise, that markup is a `<row>`
   * numbered as the counter was.
   */
  lemma AddRowMeaning(enc: RowEncoder, w: Worksheet, values: seq<Value>)
    requires AddRowWith(enc, w, values).Ok?
    ensures Entries(AddRowWith(enc, w, values).value.log) == Extend(Entries(w.log), enc(values, w.rownum, w.options.sst).value.xml)
    ensures Paths(AddRowWith(enc, w, values).value.log) == Paths(w.log)
    ensures EncodesRows(enc) ==> IsRow(enc(values, w.rownum, w.options.sst).value.xml, w.rownum)
  {
    var e := enc(values, w.rownum, w.options.sst).value;
    EntriesSnoc(w.log, Append(e.xml));
    PathsSnoc(w.log, Append(e.xml));
    if EncodesRows(enc) {
      EncodedRow(enc, values, w.rownum, w.options.sst);
    }
  }

  /**
   * `<<` / `add_row`: encodes the row under the current number with the worksheet's options,
   * writes it, and counts on. A row that raises writes nothing and keeps the number.
   */
  function AddRow(rt: Runtime, w: Worksheet, values: seq<Value>): (r: Result<Worksheet>)
    ensures Rows.RowXml(rt, values, w.rownum, w.options.sst, w.options.autoFormat).Err? <==> r.Err?
    ensures r.Ok? ==> r.value.rownum == w.rownum + 1 && r.value.options.columns == w.options.columns
    ensures r.Ok? ==> r.value.options.autoFormat == w.options.autoFormat
    ensures r.Ok? ==> (r.value.options.sst.Some? <==> w.options.sst.Some?)
    ensures r.Ok? ==> |r.value.log| == |w.log| + 1 && r.value.log[..|w.log|] == w.log
  {
    var enc := Encoder(rt, w.options.autoFormat);
    assert enc(values, w.rownum, w.options.sst) == Rows.RowXml(rt, values, w.rownum, w.options.sst, w.options.autoFormat);
    AddRowWith(enc, w, values)
  }

  /** `close`: the footer. */
  function CloseWorksheet(w: Worksheet): (r: Worksheet)
    ensures r.log == w.log + [Append(Footer)] && r.rownum == w.rownum && r.options == w.options
  {
    w.(log := w.log + [Append(Footer)])
  }

  /** What `close` does to the sink: the footer joins the current part, and no part is opened. */
  lemma CloseWorksheetMeaning(w: Worksheet)
    ensures Entries(CloseWorksheet(w).log) == Extend(Entries(w.log), Footer)
    ensures Paths(CloseWorksheet(w).log) == Paths(w.log)
  {
    EntriesSnoc(w.log, Append(Footer));
    PathsSnoc(w.log, Append(Footer));
  }

  /** Rows added one after another with the given encoding, stopping at the first that raises. */
  function AddRowsWith(enc: RowEncoder, w: Worksheet, rows: seq<seq<Value>>): (r: Result<Worksheet>)
    decreases |rows|
  {
    if |rows| == 0 then Ok(w)
    else
      var before :- AddRowsWith(enc, w, rows[..|rows| - 1]);
      AddRowWith(enc, before, rows[|rows| - 1])
  }

  /** Rows added one after another, stopping at the first that raises. */
  function AddRows(rt: Runtime, w: Worksheet, rows: seq<seq<Value>>): (r: Result<Worksheet>)
  {
    AddRowsWith(Encoder(rt, w.options.autoFormat), w, rows)
  }

  /** The texts of a run of rows and the table after them. */
  datatype Written = Written(texts: seq<string>, sst: Option<SharedStrings.Table>)

  /**
   * The reference meaning of a run of rows: each encoded on its own, row i (from 0) under
   * number n + i, the shared table threaded through.
   */
  function RowTextsWith(enc: RowEncoder, rows: seq<seq<Value>>, n: nat, sst: Option<SharedStrings.Table>): (r: Result<Written>)
    ensures r.Ok? ==> |r.value.texts| == |rows|
    decreases |rows|
  {
    if |rows| == 0 then Ok(Written([], sst))
    else
      var k := |rows| - 1;
      var before :- RowTextsWith(enc, rows[..k], n, sst);
      var e :- enc(rows[k], n + k, before.sst);
      Ok(Written(before.texts + [e.xml], e.sst))
  }

  function RowTexts(rt: Runtime, rows: seq<seq<Value>>, n: nat, sst: Option<SharedStrings.Table>, autoFormat: bool): (r: Result<Written>)
  {
    RowTextsWith(Encoder(rt, autoFormat), rows, n, sst)
  }

  /** Texts i = 0, 1, … are `<row>` elements numbered n, n + 1, …, stated one row at a time. */
  predicate AreRows(texts: seq<string>, n: nat)
    decreases |texts|
  {
    |texts| == 0 || (AreRows(texts[..|texts| - 1], n) && IsRow(texts[|texts| - 1], n + |texts| - 1))
  }

  lemma AreRowsSnoc(texts: seq<string>, x: string, n: nat)
    requires AreRows(texts, n) && IsRow(x, n + |texts|)
    ensures AreRows(texts + [x], n)
  {
    assert (texts + [x])[..|texts|] == texts;
  }

  lemma {:induction false} AreRowsIndexed(texts: seq<string>, n: nat)
    requires AreRows(texts, n)
    ensures forall i | 0 <= i < |texts| :: IsRow(texts[i], n + i)
    decreases |texts|
  {
    if |texts| > 0 {
      var k := |texts| - 1;
      AreRowsIndexed(texts[..k], n);
      forall i | 0 <= i < k
        ensures IsRow(texts[i], n + i)
      {
        assert texts[i] == texts[..k][i];
      }
    }
  }

  /** A run under an encoding that keeps the row promise writes rows and keeps the table's presence. */
  lemma {:induction false} RowTextsWithRows(enc: RowEncoder, rows: seq<seq<Value>>, n: nat, sst: Option<SharedStrings.Table>)
    requires EncodesRows(enc) && RowTextsWith(enc, rows, n, sst).Ok?
    ensures AreRows(RowTextsWith(enc, rows, n, sst).value.texts, n)
    ensures RowTextsWith(enc, rows, n, sst).value.sst.Some? <==> sst.Some?
    decreases |rows|
  {
    if |rows| > 0 {
      var k := |rows| - 1;
      RowTextsWithRows(enc, rows[..k], n, sst);
      var before := RowTextsWith(enc, rows[..k], n, sst).value;
      var e := enc(rows[k], n + k, before.sst).value;
      EncodedRow(enc, rows[k], n + k, before.sst);
      assert RowTextsWith(enc, rows, n, sst).value == Written(before.texts + [e.xml], e.sst);
      AreRowsSnoc(before.texts, e.xml, n);
    }
  }

  lemma EncodedRow(enc: RowEncoder, values: seq<Value>, n: nat, sst: Option<SharedStrings.Table>)
    requires EncodesRows(enc) && enc(values, n, sst).Ok?
    ensures IsRow(enc(values, n, sst).value.xml, n) && (enc(values, n, sst).value.sst.Some? <==> sst.Some?)
  {
  }

  /** Row i of a run (from 0) is written as a `<row>` element numbered n + i. */
  lemma RowTextsAreRows(rt: Runtime, rows: seq<seq<Value>>, n: nat, sst: Option<SharedStrings.Table>, autoFormat: bool)
    requires RowTexts(rt, rows, n, sst, autoFormat).Ok?
    ensures var texts := RowTexts(rt, rows, n, sst, autoFormat).value.texts;
            forall i | 0 <= i < |rows| :: IsRow(texts[i], n + i)
  {
    EncoderRows(rt, autoFormat);
    RowTextsWithRows(Encoder(rt, autoFormat), rows, n, sst);
    AreRowsIndexed(RowTexts(rt, rows, n, sst, autoFormat).value.texts, n);
  }

  /**
   * Adding rows writes exactly their reference texts, one `<<` each, numbers them from the
   * current count on, and raises exactly when one of them does.
   */
  lemma {:induction false} AddRowsWithWrites(enc: RowEncoder, w: Worksheet, rows: seq<seq<Value>>)
    ensures AddRowsWith(enc, w, rows).Ok? <==> RowTextsWith(enc, rows, w.rownum, w.options.sst).Ok?
    ensures AddRowsWith(enc, w, rows).Ok? ==>
              var written := RowTextsWith(enc, rows, w.rownum, w.options.sst).value;
              && AddRowsWith(enc, w, rows).value.log == w.log + Appends(written.texts)
              && AddRowsWith(enc, w, rows).value.rownum == w.rownum + |rows|
              && AddRowsWith(enc, w, rows).value.options == w.options.(sst := written.sst)
    decreases |rows|
  {
    if |rows| > 0 {
      var k := |rows| - 1;
      AddRowsWithWrites(enc, w, rows[..k]);
      var before := AddRowsWith(enc, w, rows[..k]);
      if before.Ok? {
        var written := RowTextsWith(enc, rows[..k], w.rownum, w.options.sst).value;
        var e := enc(rows[k], w.rownum + k, written.sst);
        if e.Ok? {
          AppendsPush(w.log, written.texts, e.value.xml);
        }
      }
    }
  }

  lemma AddRowsWrites(rt: Runtime, w: Worksheet, rows: seq<seq<Value>>)
    ensures AddRows(rt, w, rows).Ok? <==> RowTexts(rt, rows, w.rownum, w.options.sst, w.options.autoFormat).Ok?
    ensures AddRows(rt, w, rows).Ok? ==>
              var written := RowTexts(rt, rows, w.rownum, w.options.sst, w.options.autoFormat).value;
              && AddRows(rt, w, rows).value.log == w.log + Appends(written.texts)
              && AddRows(rt, w, rows).value.rownum == w.rownum + |rows|
              && AddRows(rt, w, rows).value.options == w.options.(sst := written.sst)
  {
    AddRowsWithWrites(Encoder(rt, w.options.autoFormat), w, rows);
  }

  /** Rows written with a shared string table leave a table; rows written inline leave none. */
  lemma AddRowsKeepsTable(rt: Runtime, w: Worksheet, rows: seq<seq<Value>>)
    ensures AddRows(rt, w, rows).Ok? ==> (AddRows(rt, w, rows).value.options.sst.Some? <==> w.options.sst.Some?)
  {
    var enc := Encoder(rt, w.options.autoFormat);
    AddRowsWithWrites(enc, w, rows);
    if AddRowsWith(enc, w, rows).Ok? {
      EncoderRows(rt, w.options.autoFormat);
      RowTextsWithRows(enc, rows, w.rownum, w.options.sst);
    }
  }

  /** `<<` over a list of rows, as a block given to `write_worksheet` would call it. */
  method WriteRows(rt: Runtime, w: Worksheet, rows: seq<seq<Value>>) returns (r: Result<Worksheet>)
    ensures r == AddRows(rt, w, rows)
    ensures r.Ok? <==> RowTexts(rt, rows, w.rownum, w.options.sst, w.options.autoFormat).Ok?
    ensures r.Ok? ==> r.value.rownum == w.rownum + |rows|
  {
    var enc := Encoder(rt, w.options.autoFormat);
    var cur := w;
    var i := 0;
    while i < |rows|
      invariant 0 <= i <= |rows|
      invariant AddRowsWith(enc, w, rows[..i]) == Ok(cur)
    {
      AddRowsStep(enc, w, rows, i);
      var next := AddRowWith(enc, cur, rows[i]);
      if next.Err? {
        AddRowsFailed(enc, w, rows, i + 1);
        AddRowsWithWrites(enc, w, rows);
        return next;
      }
      cur := next.value;
      i := i + 1;
    }
    assert rows[..i] == rows;
    AddRowsWithWrites(enc, w, rows);
    return Ok(cur);
  }

  /** One more row after a run that did not raise. */
  lemma AddRowsStep(enc: RowEncoder, w: Worksheet, rows: seq<seq<Value>>, i: nat)
    requires i < |rows| && AddRowsWith(enc, w, rows[..i]).Ok?
    ensures AddRowsWith(enc, w, rows[..i + 1]) == AddRowWith(enc, AddRowsWith(enc, w, rows[..i]).value, rows[i])
  {
    assert rows[..i + 1][..i] == rows[..i];
  }

  /** Once a row raises, no later row is added: the whole run raises. */
  lemma {:induction false} AddRowsFailed(enc: RowEncoder, w: Worksheet, rows: seq<seq<Value>>, k: nat)
    requires k <= |rows| && AddRowsWith(enc, w, rows[..k]).Err?
    ensures AddRowsWith(enc, w, rows) == AddRowsWith(enc, w, rows[..k])
    decreases |rows| - k
  {
    if k < |rows| {
      assert rows[..k + 1][..k] == rows[..k];
      AddRowsFailed(enc, w, rows, k + 1);
    } else {
      assert rows[..k] == rows;
    }
  }

  /**
   * The whole worksheet part: opened at p, with n rows and closed, it holds the header, row 1
   * to row n and the footer, and nothing else.
   */
  lemma WorksheetPart(rt: Runtime, log: Log, p: string, options: SheetOptions, rows: seq<seq<Value>>)
    requires RowTexts(rt, rows, 1, options.sst, options.autoFormat).Ok?
    ensures AddRows(rt, NewWorksheet(log + [AddFile(p)], options), rows).Ok?
    ensures var written := RowTexts(rt, rows, 1, options.sst, options.autoFormat).value;
            Entries(CloseWorksheet(AddRows(rt, NewWorksheet(log + [AddFile(p)], options), rows).value).log)
            == Entries(log) + [(p, Join(HeaderTexts(options.columns)) + Join(written.texts) + Footer)]
  {
    var w := NewWorksheet(log + [AddFile(p)], options);
    AddRowsWrites(rt, w, rows);
    var written := RowTexts(rt, rows, 1, options.sst, options.autoFormat).value;
    var filled := AddRows(rt, w, rows).value;
    assert filled.log == log + [AddFile(p)] + Appends(HeaderTexts(options.columns)) + Appends(written.texts);
    ThreeRuns(log, p, HeaderTexts(options.columns), written.texts, Footer);
  }

  /** A part opened, then two runs of texts and one more text written into it. */
  lemma ThreeRuns(log: Log, p: string, a: seq<string>, b: seq<string>, c: string)
    ensures Entries(log + [AddFile(p)] + Appends(a) + Appends(b) + [Append(c)]) == Entries(log) + [(p, Join(a) + Join(b) + c)]
  {
    var texts := a + b + [c];
    AppendsConcat(a + b, [c]);
    AppendsConcat(a, b);
    assert log + [AddFile(p)] + Appends(a) + Appends(b) + [Append(c)] == log + [AddFile(p)] + Appends(texts);
    OpenThenAppends(log, p, texts);
    JoinAppend(a + b, [c]);
    JoinAppend(a, b);
    assert Join([c]) == c by {
      assert [c][..0] == [];
    }
  }

  /** An empty worksheet without columns: declaration, then `<worksheet><sheetData></sheetData></worksheet>`. */
  lemma EmptyWorksheet(rt: Runtime, log: Log, p: string, sst: Option<SharedStrings.Table>, autoFormat: bool)
    ensures var w := NewWorksheet(log + [AddFile(p)], SheetOptions(None, sst, autoFormat));
            Entries(CloseWorksheet(w).log) == Entries(log) + [(p, Xml.Header + WorksheetOpen + SheetDataOpen + Footer)]
  {
    var options := SheetOptions(None, sst, autoFormat);
    var w := NewWorksheet(log + [AddFile(p)], options);
    assert AddRows(rt, w, []) == Ok(w);
    WorksheetPart(rt, log, p, options, []);
    HeaderText(None);
    assert Join(RowTexts(rt, [], 1, sst, autoFormat).value.texts) == "";
    assert Xml.Header + WorksheetOpen + SheetDataOpen + "" + Footer == Xml.Header + WorksheetOpen + SheetDataOpen + Footer;
  }
}
