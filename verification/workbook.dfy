/**
 * Xlsxtream::Workbook: hands out worksheet ids by name, writes each worksheet part while
 * its block runs, and on `close` writes the package parts that tie the sheets together
 * (workbook.xml, styles.xml, sharedStrings.xml, the two relationship parts and
 * [Content_Types].xml) before closing the sink.
 */
module Workbooks {
  import opened Wrappers
  import opened Text
  import opened Sinks
  import opened Values
  import opened Interning
  import Cells
  import Styles
  import Xml
  import SharedStrings
  import Succ
  import Worksheets

  // ---- worksheets ----

  /** A sheet name as the id table keys it: a String, or a Hash left in the name's place. */
  datatype SheetName = Named(text: string) | HashName(options: Cells.Style)

  /** What `write_worksheet` receives as its first argument. */
  datatype FirstArg = NoName | Name(text: string) | OptionsArg(options: Cells.Style)

  /**
   * The workbook's state: its options, the shared string table, the worksheet names in
   * the order they were first seen (the id of sheets[i] is i + 1), and the sink's log.
   */
  datatype Workbook = Workbook(options: Cells.Style, sst: SharedStrings.Table, sheets: seq<SheetName>, log: Log)

  /** `Workbook.new(output, options)`: nothing is written until the first worksheet. */
  function NewWorkbook(options: Cells.Style): (wb: Workbook)
    ensures wb.options == options && wb.sheets == [] && wb.log == []
    ensures SharedStrings.IsEmpty(wb.sst) && wb.sst.references == 0
    ensures Valid(wb) && SharedStrings.Valid(wb.sst)
  {
    Workbook(options, SharedStrings.Empty(), [], [])
  }

  /** Every name has one id: the id table never holds a name twice. */
  predicate Valid(wb: Workbook)
  {
    DistinctKeys(wb.sheets, Itself)
  }

  /** A Hash given alone as the first argument is taken as the options, and the name is nil. */
  function Arguments(arg: FirstArg, options: Cells.Style): (Option<SheetName>, Cells.Style)
  {
    match arg
    case NoName => (None, options)
    case Name(t) => (Some(Named(t)), options)
    case OptionsArg(h) => if |options| == 0 then (None, h) else (Some(HashName(h)), options)
  }

  /** An option value as a condition: a Hash is truthy, a plain value as Ruby has it. */
  predicate IsSet(e: Cells.Entry)
  {
    e.Hash? || Cells.Truthy(e.value)
  }

  /** `options.fetch(key, @options[key])` as a condition: a key the sheet gives wins, even when it is false. */
  predicate Flag(sheet: Cells.Style, book: Cells.Style, key: string)
  {
    if key in sheet then IsSet(sheet[key]) else key in book && IsSet(book[key])
  }

  /** The name an unnamed worksheet gets: "Sheet" and one more than the number of names so far. */
  function DefaultName(sheets: seq<SheetName>): SheetName
  {
    Named("Sheet" + NatToString(|sheets| + 1))
  }

  /** `@worksheets[name]`: the id the name already has, else the next id, stored now. */
  function Register(sheets: seq<SheetName>, name: SheetName): (r: (seq<SheetName>, nat))
    ensures name in sheets ==> r.0 == sheets && 1 <= r.1 <= |sheets| && sheets[r.1 - 1] == name
    ensures name !in sheets ==> r.0 == sheets + [name] && r.1 == |sheets| + 1
  {
    var t := InternBy(sheets, Itself, name);
    assert HasKey(sheets, Itself, name) <==> name in sheets by {
      if name in sheets {
        var j :| 0 <= j < |sheets| && sheets[j] == name;
        assert Itself(sheets[j]) == Itself(name);
      }
    }
    (t.0, t.1 + 1)
  }

  /** The part a worksheet id is written to. */
  function SheetPath(id: nat): string
  {
    "xl/worksheets/sheet" + NatToString(id) + ".xml"
  }

  /** The sheet options `write_worksheet` passes on: no columns, the table only when shared strings are on. */
  function SheetOptionsFor(wb: Workbook, options: Cells.Style): Worksheets.SheetOptions
  {
    var useSst := Flag(options, wb.options, "use_shared_strings");
    Worksheets.SheetOptions(None, if useSst then Some(wb.sst) else None, Flag(options, wb.options, "auto_format"))
  }

  /**
   * `write_worksheet(name, options) { |ws| rows.each { |row| ws << row } }`: resolves the name,
   * opens the part of its id, writes the worksheet and closes it. A row that raises
   * ends the call; the model keeps no sink state after the error.
   */
  function WriteWorksheet(rt: Runtime, wb: Workbook, arg: FirstArg, options: Cells.Style, rows: seq<seq<Value>>): (r: Result<Workbook>)
    ensures r.Ok? ==> r.value.options == wb.options
    ensures r.Ok? && !Flag(Arguments(arg, options).1, wb.options, "use_shared_strings") ==> r.value.sst == wb.sst
  {
    var args := Arguments(arg, options);
    var name := if args.0.Some? then args.0.value else DefaultName(wb.sheets);
    var reg := Register(wb.sheets, name);
    var sheetOptions := SheetOptionsFor(wb, args.1);
    var started := wb.log + [AddFile(SheetPath(reg.1))];
    var filled :- Worksheets.AddRows(rt, Worksheets.NewWorksheet(started, sheetOptions), rows);
    var closed := Worksheets.CloseWorksheet(filled);
    Worksheets.AddRowsKeepsTable(rt, Worksheets.NewWorksheet(started, sheetOptions), rows);
    Ok(Workbook(wb.options, if sheetOptions.sst.Some? then filled.options.sst.value else wb.sst, reg.0, closed.log))
  }

  /** The name a call files its worksheet under. */
  function NameOf(wb: Workbook, arg: FirstArg, options: Cells.Style): SheetName
  {
    var args := Arguments(arg, options);
    if args.0.Some? then args.0.value else DefaultName(wb.sheets)
  }

  /**
   * A worksheet is written into the part of its name's id, and that part holds exactly
   * the worksheet: the header, its rows numbered from 1, the footer. It raises exactly
   * when one of its rows does.
   */
  lemma WorksheetWritten(rt: Runtime, wb: Workbook, arg: FirstArg, options: Cells.Style, rows: seq<seq<Value>>)
    ensures var so := SheetOptionsFor(wb, Arguments(arg, options).1);
            WriteWorksheet(rt, wb, arg, options, rows).Ok? <==> Worksheets.RowTexts(rt, rows, 1, so.sst, so.autoFormat).Ok?
    ensures var so := SheetOptionsFor(wb, Arguments(arg, options).1);
            var r := WriteWorksheet(rt, wb, arg, options, rows);
            r.Ok? ==>
              var written := Worksheets.RowTexts(rt, rows, 1, so.sst, so.autoFormat).value;
              var id := Register(wb.sheets, NameOf(wb, arg, options)).1;
              && r.value.sheets == Register(wb.sheets, NameOf(wb, arg, options)).0
              && Entries(r.value.log)
                 == Entries(wb.log) + [(SheetPath(id), Xml.Header + Worksheets.WorksheetOpen + Worksheets.SheetDataOpen + Join(written.texts) + Worksheets.Footer)]
  {
    var args := Arguments(arg, options);
    var so := SheetOptionsFor(wb, args.1);
    var id := Register(wb.sheets, NameOf(wb, arg, options)).1;
    var w := Worksheets.NewWorksheet(wb.log + [AddFile(SheetPath(id))], so);
    Worksheets.AddRowsWrites(rt, w, rows);
    if Worksheets.RowTexts(rt, rows, 1, so.sst, so.autoFormat).Ok? {
      Worksheets.WorksheetPart(rt, wb.log, SheetPath(id), so, rows);
      Worksheets.HeaderText(None);
    }
  }

  /** Writing a worksheet keeps every name's id unique. */
  lemma WriteKeepsValid(rt: Runtime, wb: Workbook, arg: FirstArg, options: Cells.Style, rows: seq<seq<Value>>)
    requires Valid(wb)
    ensures WriteWorksheet(rt, wb, arg, options, rows).Ok? ==> Valid(WriteWorksheet(rt, wb, arg, options, rows).value)
  {
    InternKeepsDistinct(wb.sheets, Itself, NameOf(wb, arg, options));
  }

  /** A name seen before keeps its id; a new name gets the next one, and the ids are the positions plus one. */
  lemma {:induction false} RegisterIds(sheets: seq<SheetName>, name: SheetName, k: nat)
    requires DistinctKeys(sheets, Itself) && k < |sheets| && sheets[k] == name
    ensures Register(sheets, name) == (sheets, k + 1)
  {
    FoundAt(sheets, Itself, name, k);
  }

  /**
   * The default name is counted, not checked: after a sheet named "Sheet2", an unnamed
   * sheet is called "Sheet2" too, gets id 1 again, and its rows go to sheet1.xml a second time.
   */
  lemma DefaultNameCollision(wb: Workbook)
    requires wb.sheets == [Named("Sheet2")]
    ensures NameOf(wb, NoName, map[]) == Named("Sheet2")
    ensures Register(wb.sheets, NameOf(wb, NoName, map[])) == (wb.sheets, 1)
  {
    assert NatToString(2) == "2";
  }

  /** A Hash given alone holds options, not a name: its `:name` key does not name the sheet. */
  lemma NameOptionIgnored(wb: Workbook, h: Cells.Style)
    requires |h| > 0
    ensures NameOf(wb, OptionsArg(h), map[]) == DefaultName(wb.sheets)
    ensures NameOf(wb, OptionsArg(h), map["use_shared_strings" := Cells.Plain(Cells.Bool(true))]) == HashName(h)
  {
  }

  // ---- the parts written on close ----

  const WorkbookPath: string := "xl/workbook.xml"
  const StylesPath: string := "xl/styles.xml"
  const SstPath: string := "xl/sharedStrings.xml"
  const WorkbookRelsPath: string := "xl/_rels/workbook.xml.rels"
  const RootRelsPath: string := "_rels/.rels"
  const ContentTypesPath: string := "[Content_Types].xml"

  /**
   * The fixed texts of the package parts: namespaces, content types and the styles
   * template. Where the parts go and what the workbook's data puts into them does not
   * depend on these texts, so the parts are written from a Layout, and Ooxml is the
   * Layout `close` writes.
   */
  datatype Layout = Layout(
    workbookOpen: string,    // workbook.xml, stripped, up to and including `<sheets>`
    stylesHead: string,      // the styles heredoc up to the font size
    sizeToName: string,      // between the size and the name
    nameToFamily: string,    // between the name and the family id
    stylesTail: string,      // after the family id
    sstNamespace: string,
    relsOpen: string,        // `<Relationships xmlns=...>`
    relTypes: string,        // the prefix of every relationship type
    typesHead: string,       // `<Types xmlns=...>` and the two defaults
    workbookType: string,
    stylesType: string,
    sstType: string,
    sheetType: string)

  /** The texts workbook.rb writes. */
  const Ooxml: Layout := Layout(
    "<workbook xmlns=\"http://schemas.openxmlformats.org/spreadsheetml/2006/main\""
    + " xmlns:r=\"http://schemas.openxmlformats.org/officeDocument/2006/relationships\">"
    + "<workbookPr date1904=\"false\"/><sheets>",
    StylesHead, "\"/>\n              <name val=\"", "\"/>\n              <family val=\"", StylesTail,
    "http://schemas.openxmlformats.org/spreadsheetml/2006/main",
    "<Relationships xmlns=\"http://schemas.openxmlformats.org/package/2006/relationships\">",
    "http://schemas.openxmlformats.org/officeDocument/2006/relationships/",
    "<Types xmlns=\"http://schemas.openxmlformats.org/package/2006/content-types\">"
    + "<Default Extension=\"xml\" ContentType=\"application/xml\"/>"
    + "<Default Extension=\"rels\" ContentType=\"application/vnd.openxmlformats-package.relationships+xml\"/>",
    "application/vnd.openxmlformats-officedocument.spreadsheetml.sheet.main+xml",
    "application/vnd.openxmlformats-officedocument.spreadsheetml.styles+xml",
    "application/vnd.openxmlformats-officedocument.spreadsheetml.sharedStrings+xml",
    "application/vnd.openxmlformats-officedocument.spreadsheetml.worksheet+xml")

  const WorkbookClose: string := "</sheets></workbook>"

  /** The entry of the i-th sheet (from 0): its escaped name, its id and the next relationship id. */
  function SheetLine(name: string, i: nat): string
  {
    "<sheet name=\"" + Xml.EscapeAttr(name) + "\" sheetId=\"" + NatToString(i + 1) + "\" r:id=\"" + Succ.RelId(i + 1) + "\"/>"
  }

  /** The number of sheets before the first that is not named by a String. */
  function NamedPrefix(sheets: seq<SheetName>): (k: nat)
    ensures k <= |sheets|
    ensures forall i | 0 <= i < k :: sheets[i].Named?
    ensures k < |sheets| ==> sheets[k].HashName?
    decreases |sheets|
  {
    if |sheets| == 0 || sheets[0].HashName? then 0 else 1 + NamedPrefix(sheets[1..])
  }

  function NameText(s: SheetName): string
  {
    if s.Named? then s.text else ""
  }

  /** The sheet entries written before the first name that escaping cannot handle. */
  function SheetLines(sheets: seq<SheetName>): (r: seq<string>)
    ensures |r| == NamedPrefix(sheets)
    ensures forall i | 0 <= i < |r| :: r[i] == SheetLine(sheets[i].text, i)
  {
    seq(NamedPrefix(sheets), i requires 0 <= i < NamedPrefix(sheets) => SheetLine(NameText(sheets[i]), i))
  }

  /**
   * Each sheet entry carries its name as an attribute value that holds no raw quote and
   * reads back as the name, so no name can end the attribute early.
   */
  lemma SheetNameReadsBack(sheets: seq<SheetName>, i: nat)
    requires i < NamedPrefix(sheets)
    ensures exists e :: && SheetLines(sheets)[i] == "<sheet name=\"" + e + "\" sheetId=\"" + NatToString(i + 1) + "\" r:id=\"" + Succ.RelId(i + 1) + "\"/>"
                        && '"' !in e && Xml.Unescape(e) == sheets[i].text
  {
    Xml.EscapeAttrRoundTrip(sheets[i].text);
    Xml.EscapeAttrSafe(sheets[i].text);
  }

  /** workbook.xml as written; a Hash name (`gsub` on a Hash) cuts it short after the sheets before it. */
  function WorkbookPart(lay: Layout, sheets: seq<SheetName>): (p: Part)
    ensures p.path == WorkbookPath
  {
    var lines := SheetLines(sheets);
    Part(WorkbookPath, [Xml.Header, lay.workbookOpen] + lines + (if |lines| == |sheets| then [WorkbookClose] else []))
  }

  // ---- styles.xml ----

  /** The font the workbook's `:font` option asks for. */
  datatype FontSettings = FontSettings(size: string, name: string, familyId: nat)

  /** `@options.fetch(:font, {})`: the Hash, an empty one when absent; anything else has no `fetch`. */
  function FontOptions(options: Cells.Style): (r: Result<Cells.Options>)
    ensures "font" !in options ==> r == Ok(map[])
    ensures r.Err? <==> "font" in options && options["font"].Plain?
    ensures r.Err? ==> r.error == MissingMethod("fetch")
  {
    if "font" !in options then Ok(map[])
    else match options["font"]
      case Hash(o) => Ok(o)
      case Plain(_) => Err(MissingMethod("fetch"))
  }

  /** An option of the font Hash as text: `fetch(key, default).to_s`. */
  function FontText(o: Cells.Options, key: string, default: Cells.Scalar): string
  {
    Cells.ToS(if key in o then o[key] else default)
  }

  /**
   * The size, name and family id of the font: `fetch(:size, 12).to_s`, `fetch(:name, 'Calibri').to_s`
   * and the id of `fetch(:family, 'Swiss').to_s.downcase` (see FontFamily).
   */
  function Font(options: Cells.Style): (r: Result<FontSettings>)
    ensures FontOptions(options).Err? ==> r == Err(MissingMethod("fetch"))
    ensures r.Ok? ==> r.value.size == FontText(FontOptions(options).value, "size", Cells.Int(12))
    ensures r.Ok? ==> r.value.name == FontText(FontOptions(options).value, "name", Cells.Str("Calibri"))
  {
    var o :- FontOptions(options);
    var family := FamilyText(o);
    match Styles.FamilyIndex(family)
    case Some(id) => Ok(FontSettings(FontText(o, "size", Cells.Int(12)), FontText(o, "name", Cells.Str("Calibri")), id))
    case None => Err(InvalidFontFamily(family))
  }

  /** The family as looked up: the option's text, down-cased. */
  function FamilyText(o: Cells.Options): string
  {
    AsciiDowncase(FontText(o, "family", Cells.Str("Swiss")))
  }

  /**
   * The family id is the position of the down-cased family among the six names; any
   * other family is an Error naming it, down-cased.
   */
  lemma FontFamily(options: Cells.Style)
    requires FontOptions(options).Ok?
    ensures var family := FamilyText(FontOptions(options).value);
            && (Font(options).Ok? <==> family in Styles.FamilyNames)
            && (Font(options).Ok? ==> Font(options).value.familyId < |Styles.FamilyNames|
                                      && Styles.FamilyNames[Font(options).value.familyId] == family)
            && (Font(options).Err? ==> Font(options).error == InvalidFontFamily(family))
  {
  }

  /** styles.xml before stripping, up to the size value: the heredoc with its layout. */
  const StylesHead: string :=
    "        <styleSheet xmlns=\"http://schemas.openxmlformats.org/spreadsheetml/2006/main\">\n"
    + "          <numFmts count=\"2\">\n"
    + "            <numFmt numFmtId=\"164\" formatCode=\"yyyy\\-mm\\-dd\"/>\n"
    + "            <numFmt numFmtId=\"165\" formatCode=\"yyyy\\-mm\\-dd hh:mm:ss\"/>\n"
    + "          </numFmts>\n"
    + "          <fonts count=\"1\">\n"
    + "            <font>\n"
    + "              <sz val=\""

  const StylesTail: string :=
    "\"/>\n"
    + "            </font>\n"
    + "          </fonts>\n"
    + "          <fills count=\"2\">\n"
    + "            <fill>\n"
    + "              <patternFill patternType=\"none\"/>\n"
    + "            </fill>\n"
    + "            <fill>\n"
    + "              <patternFill patternType=\"gray125\"/>\n"
    + "            </fill>\n"
    + "          </fills>\n"
    + "          <borders count=\"1\">\n"
    + "            <border/>\n"
    + "          </borders>\n"
    + "          <cellStyleXfs count=\"1\">\n"
    + "            <xf numFmtId=\"0\" fontId=\"0\" fillId=\"0\" borderId=\"0\"/>\n"
    + "          </cellStyleXfs>\n"
    + "          <cellXfs count=\"3\">\n"
    + "            <xf numFmtId=\"0\" fontId=\"0\" fillId=\"0\" borderId=\"0\" xfId=\"0\"/>\n"
    + "            <xf numFmtId=\"164\" fontId=\"0\" fillId=\"0\" borderId=\"0\" xfId=\"0\" applyNumberFormat=\"1\"/>\n"
    + "            <xf numFmtId=\"165\" fontId=\"0\" fillId=\"0\" borderId=\"0\" xfId=\"0\" applyNumberFormat=\"1\"/>\n"
    + "          </cellXfs>\n"
    + "          <cellStyles count=\"1\">\n"
    + "            <cellStyle name=\"Normal\" xfId=\"0\" builtinId=\"0\"/>\n"
    + "          </cellStyles>\n"
    + "          <dxfs count=\"0\"/>\n"
    + "          <tableStyles count=\"0\" defaultTableStyle=\"TableStyleMedium9\" defaultPivotStyle=\"PivotStyleLight16\"/>\n"
    + "        </styleSheet>\n"

  /** The styles heredoc with the font's values put in, before stripping. */
  function StylesBody(lay: Layout, f: FontSettings): string
  {
    lay.stylesHead + Xml.EscapeAttr(f.size) + lay.sizeToName + Xml.EscapeAttr(f.name) + lay.nameToFamily
    + NatToString(f.familyId) + lay.stylesTail
  }

  function StylesPart(lay: Layout, f: FontSettings): (p: Part)
    ensures p.path == StylesPath
  {
    Part(StylesPath, [Xml.Header, Xml.Strip(StylesBody(lay, f))])
  }

  // ---- sharedStrings.xml ----

  /** `<sst>` with the number of lookups as `count` and the number of strings as `uniqueCount`. */
  function SstOpen(lay: Layout, t: SharedStrings.Table): string
  {
    "<sst xmlns=\"" + lay.sstNamespace + "\" count=\"" + NatToString(t.references) + "\" uniqueCount=\"" + NatToString(SharedStrings.Size(t)) + "\">"
  }

  /** One string item; the text goes through XML.escape_value as written. */
  function StringItem(s: string): string
  {
    "<si><t>" + Xml.EscapeValue(s) + "</t></si>"
  }

  /** The character data between `<si><t>` and `</t></si>`, when the text has that shape. */
  function ItemBody(item: string): Option<string>
  {
    if |item| >= 16 && item[..7] == "<si><t>" && item[|item| - 9..] == "</t></si>"
    then Some(item[7..|item| - 9]) else None
  }

  /** The item is a string item whose character data holds only XML 1.0 characters and no raw `<` or `>`. */
  predicate SafeItem(item: string)
  {
    ItemBody(item).Some? && forall c | c in ItemBody(item).value :: Xml.IsXmlChar(c) && c != '<' && c != '>'
  }

  /** A reader of the item gets s back: entities first, then ST_Xstring escapes. */
  predicate ItemReadsBack(item: string, s: string)
  {
    ItemBody(item).Some? && Xml.DecodeXstring(Xml.Unescape(ItemBody(item).value)) == s
  }

  lemma StringItemMeaning(s: string)
    ensures SafeItem(StringItem(s))
    ensures '_' !in s ==> ItemReadsBack(StringItem(s), s)
  {
    var e := Xml.EscapeValue(s);
    var item := StringItem(s);
    assert item[..7] == "<si><t>" && item[|item| - 9..] == "</t></si>" && item[7..|item| - 9] == e;
    Xml.EscapeValueSafe(s);
    if '_' !in s {
      Xml.EscapeValueReadsBack(s);
    }
  }

  /**
   * One item per string, in id order: each is safe character data, and the item of a
   * string without an underscore reads back as that string.
   */
  function StringItems(strings: seq<string>): (r: seq<string>)
    ensures |r| == |strings|
    ensures forall i | 0 <= i < |strings| :: SafeItem(r[i]) && ('_' !in strings[i] ==> ItemReadsBack(r[i], strings[i]))
  {
    var r := seq(|strings|, i requires 0 <= i < |strings| => StringItem(strings[i]));
    assert forall i | 0 <= i < |strings| :: SafeItem(r[i]) && ('_' !in strings[i] ==> ItemReadsBack(r[i], strings[i])) by {
      forall i | 0 <= i < |strings| ensures SafeItem(r[i]) && ('_' !in strings[i] ==> ItemReadsBack(r[i], strings[i])) {
        StringItemMeaning(strings[i]);
      }
    }
    r
  }

  function SstPart(lay: Layout, t: SharedStrings.Table): (p: Part)
    ensures p.path == SstPath
  {
    Part(SstPath, [Xml.Header, SstOpen(lay, t)] + StringItems(t.strings) + ["</sst>"])
  }

  /**
   * The string with id i is written as item i of sharedStrings.xml, as safe character data;
   * a string without an underscore reads back as itself (see Xml.EscapeValueOverlapCounterexample
   * for one that does not).
   */
  lemma SstReadsBack(lay: Layout, t: SharedStrings.Table, i: nat)
    requires i < |t.strings|
    ensures |SstPart(lay, t).texts| == |t.strings| + 3
    ensures SafeItem(SstPart(lay, t).texts[i + 2])
    ensures '_' !in t.strings[i] ==> ItemReadsBack(SstPart(lay, t).texts[i + 2], t.strings[i])
  {
    assert SstPart(lay, t).texts[i + 2] == StringItems(t.strings)[i];
  }

  // ---- relationships ----

  /** A relationship of workbook.xml.rels: its id, the last segment of its type, and its target. */
  datatype Relationship = Relationship(id: string, kind: string, target: string)

  const RelsClose: string := "</Relationships>"

  function RelXml(lay: Layout, r: Relationship): string
  {
    "<Relationship Id=\"" + r.id + "\" Type=\"" + lay.relTypes + r.kind + "\" Target=\"" + r.target + "\"/>"
  }

  /** The target of a worksheet, relative to the workbook. */
  function SheetTarget(id: nat): string
  {
    "worksheets/sheet" + NatToString(id) + ".xml"
  }

  /**
   * The i-th relationship (from 0) of a workbook with n sheets: its sheets in order, then
   * styles, then shared strings.
   */
  function WorkbookRel(n: nat, i: nat): Relationship
  {
    if i < n then Relationship(Succ.RelId(i + 1), "worksheet", SheetTarget(i + 1))
    else if i == n then Relationship(Succ.RelId(n + 1), "styles", "styles.xml")
    else Relationship(Succ.RelId(n + 2), "sharedStrings", "sharedStrings.xml")
  }

  /**
   * The workbook's relationships, each id the next of "rId0": one per sheet, then styles,
   * then shared strings when the table is not empty.
   */
  function WorkbookRels(n: nat, hasSst: bool): (r: seq<Relationship>)
    ensures |r| == n + 1 + (if hasSst then 1 else 0)
    ensures forall i | 0 <= i < |r| :: r[i].id == Succ.RelId(i + 1)
    ensures forall i | 0 <= i < n :: r[i] == Relationship(Succ.RelId(i + 1), "worksheet", SheetTarget(i + 1))
    ensures r[n] == Relationship(Succ.RelId(n + 1), "styles", "styles.xml")
    ensures hasSst ==> r[n + 1] == Relationship(Succ.RelId(n + 2), "sharedStrings", "sharedStrings.xml")
  {
    seq(n + 1 + (if hasSst then 1 else 0), i requires i >= 0 => WorkbookRel(n, i))
  }

  function RelTexts(lay: Layout, rels: seq<Relationship>): (r: seq<string>)
    ensures |r| == |rels| && forall i | 0 <= i < |rels| :: r[i] == RelXml(lay, rels[i])
  {
    seq(|rels|, i requires 0 <= i < |rels| => RelXml(lay, rels[i]))
  }

  function WorkbookRelsPart(lay: Layout, n: nat, hasSst: bool): (p: Part)
    ensures p.path == WorkbookRelsPath
  {
    Part(WorkbookRelsPath, [Xml.Header, lay.relsOpen] + RelTexts(lay, WorkbookRels(n, hasSst)) + [RelsClose])
  }

  /** No two relationships of the workbook share an id. */
  lemma RelIdsDistinct(n: nat, hasSst: bool)
    ensures var rels := WorkbookRels(n, hasSst);
            forall i, j | 0 <= i < j < |rels| :: rels[i].id != rels[j].id
  {
    var rels := WorkbookRels(n, hasSst);
    forall i, j | 0 <= i < j < |rels|
      ensures rels[i].id != rels[j].id
    {
      RelIdsApart(n, hasSst, i, j);
    }
  }

  lemma RelIdsApart(n: nat, hasSst: bool, i: nat, j: nat)
    requires i < j < |WorkbookRels(n, hasSst)|
    ensures WorkbookRels(n, hasSst)[i].id != WorkbookRels(n, hasSst)[j].id
  {
    Succ.RelIdInjective(i + 1, j + 1);
  }

  /** The stripped `_rels/.rels`: the package's one relationship, to the workbook. */
  function RootRelsPart(lay: Layout): (p: Part)
    ensures p.path == RootRelsPath
  {
    Part(RootRelsPath, [Xml.Header, lay.relsOpen + RelXml(lay, Relationship("rId1", "officeDocument", "xl/workbook.xml")) + RelsClose])
  }

  // ---- [Content_Types].xml ----

  /** An `<Override>`: a part name and its content type. */
  datatype Override = Override(partName: string, contentType: string)

  function OverrideXml(o: Override): string
  {
    "<Override PartName=\"" + o.partName + "\" ContentType=\"" + o.contentType + "\"/>"
  }

  /** The overrides: workbook, styles, shared strings when the table is not empty, then each sheet by id. */
  function Overrides(lay: Layout, n: nat, hasSst: bool): (r: seq<Override>)
    ensures var m := if hasSst then 3 else 2;
            && |r| == m + n
            && r[0] == Override("/" + WorkbookPath, lay.workbookType)
            && r[1] == Override("/" + StylesPath, lay.stylesType)
            && (hasSst ==> r[2] == Override("/" + SstPath, lay.sstType))
            && forall i | m <= i < m + n :: r[i] == Override("/" + SheetPath(i - m + 1), lay.sheetType)
  {
    [Override("/" + WorkbookPath, lay.workbookType), Override("/" + StylesPath, lay.stylesType)]
    + (if hasSst then [Override("/" + SstPath, lay.sstType)] else [])
    + seq(n, i requires 0 <= i < n => Override("/" + SheetPath(i + 1), lay.sheetType))
  }

  function OverrideTexts(os: seq<Override>): (r: seq<string>)
    ensures |r| == |os| && forall i | 0 <= i < |os| :: r[i] == OverrideXml(os[i])
  {
    seq(|os|, i requires 0 <= i < |os| => OverrideXml(os[i]))
  }

  function ContentTypesPart(lay: Layout, n: nat, hasSst: bool): (p: Part)
    ensures p.path == ContentTypesPath
  {
    var os := Overrides(lay, n, hasSst);
    Part(ContentTypesPath, [Xml.Header, lay.typesHead + OverrideXml(os[0]) + OverrideXml(os[1])] + OverrideTexts(os[2..]) + ["</Types>"])
  }

  /**
   * The three places a sheet is named agree: the i-th sheet entry of workbook.xml points at
   * the i-th relationship, that relationship targets the part the sheet was written to,
   * and [Content_Types].xml declares that part a worksheet.
   */
  lemma SheetReferences(lay: Layout, sheets: seq<SheetName>, hasSst: bool, i: nat)
    requires i < NamedPrefix(sheets)
    ensures var rel := WorkbookRels(|sheets|, hasSst)[i];
            && SheetLines(sheets)[i] == "<sheet name=\"" + Xml.EscapeAttr(sheets[i].text) + "\" sheetId=\"" + NatToString(i + 1) + "\" r:id=\"" + rel.id + "\"/>"
            && rel.kind == "worksheet"
            && "xl/" + rel.target == SheetPath(i + 1)
            && Override("/" + SheetPath(i + 1), lay.sheetType) in Overrides(lay, |sheets|, hasSst)
  {
    SheetTargetPath(i + 1);
    SheetOverride(lay, |sheets|, hasSst, i);
  }

  lemma SheetTargetPath(id: nat)
    ensures "xl/" + SheetTarget(id) == SheetPath(id)
  {
    var x := NatToString(id);
    assert "xl/" + ("worksheets/sheet" + x + ".xml") == "xl/worksheets/sheet" + x + ".xml";
  }

  lemma SheetOverride(lay: Layout, n: nat, hasSst: bool, i: nat)
    requires i < n
    ensures Override("/" + SheetPath(i + 1), lay.sheetType) in Overrides(lay, n, hasSst)
  {
    var m := if hasSst then 3 else 2;
    assert Overrides(lay, n, hasSst)[m + i] == Override("/" + SheetPath(i + 1), lay.sheetType);
  }

  // ---- close ----

  /** What `close` leaves: the sink's log, and the error that stopped it, if any. */
  datatype Closed = Closed(log: Log, error: Option<Error>)

  /** The parts after workbook.xml, once the font is known. */
  function ClosingParts(lay: Layout, wb: Workbook, f: FontSettings): (parts: seq<Part>)
  {
    var hasSst := !SharedStrings.IsEmpty(wb.sst);
    [StylesPart(lay, f)]
    + (if hasSst then [SstPart(lay, wb.sst)] else [])
    + [WorkbookRelsPart(lay, |wb.sheets|, hasSst), RootRelsPart(lay), ContentTypesPart(lay, |wb.sheets|, hasSst)]
  }

  /**
   * `close`, writing the texts of `lay` (Ooxml as workbook.rb has them): workbook.xml,
   * styles.xml, sharedStrings.xml unless the table is empty, the workbook relationships,
   * the package relationships, the content types, then the sink's own `close`. A Hash name
   * fails inside workbook.xml; a bad font fails after it, before styles.xml is opened.
   * Either way the sink is left open.
   */
  function CloseWorkbook(lay: Layout, wb: Workbook): (c: Closed)
    ensures c.error.None? <==> NamedPrefix(wb.sheets) == |wb.sheets| && Font(wb.options).Ok?
    ensures c.error.None? ==> |c.log| > 0 && c.log[|c.log| - 1] == Close
  {
    var first := [WorkbookPart(lay, wb.sheets)];
    if NamedPrefix(wb.sheets) < |wb.sheets| then Closed(wb.log + PartsLog(first), Some(MissingMethod("gsub")))
    else match Font(wb.options)
      case Err(e) => Closed(wb.log + PartsLog(first), Some(e))
      case Ok(f) => Closed(wb.log + PartsLog(first + ClosingParts(lay, wb, f)) + [Close], None)
  }

  /** The paths `close` opens, in order, when nothing fails. */
  function ClosePaths(hasSst: bool): seq<string>
  {
    [WorkbookPath] + ([StylesPath] + (if hasSst then [SstPath] else []) + [WorkbookRelsPath, RootRelsPath, ContentTypesPath])
  }

  /** The parts a successful close writes, in order. */
  function CloseParts(lay: Layout, wb: Workbook, f: FontSettings): seq<Part>
  {
    [WorkbookPart(lay, wb.sheets)] + ClosingParts(lay, wb, f)
  }

  lemma ClosePartPaths(lay: Layout, wb: Workbook, f: FontSettings)
    ensures PartPaths(CloseParts(lay, wb, f)) == ClosePaths(!SharedStrings.IsEmpty(wb.sst))
  {
    var hasSst := !SharedStrings.IsEmpty(wb.sst);
    var n := |wb.sheets|;
    PackagePaths(WorkbookPart(lay, wb.sheets), StylesPart(lay, f), if hasSst then [SstPart(lay, wb.sst)] else [],
                 WorkbookRelsPart(lay, n, hasSst), RootRelsPart(lay), ContentTypesPart(lay, n, hasSst), hasSst);
  }

  /** Six parts in close's order, whatever their texts, open close's paths. */
  lemma PackagePaths(workbook: Part, styles: Part, sst: seq<Part>, rels: Part, root: Part, types: Part, hasSst: bool)
    requires workbook.path == WorkbookPath && styles.path == StylesPath
    requires |sst| == (if hasSst then 1 else 0) && (hasSst ==> sst[0].path == SstPath)
    requires rels.path == WorkbookRelsPath && root.path == RootRelsPath && types.path == ContentTypesPath
    ensures PartPaths([workbook] + ([styles] + sst + [rels, root, types])) == ClosePaths(hasSst)
  {
    var tail := [rels, root, types];
    PartPathsConcat([workbook], [styles] + sst + tail);
    PartPathsConcat([styles] + sst, tail);
    PartPathsConcat([styles], sst);
  }

  /** A successful close opens the six package parts (five without shared strings) in this order, after the sheets. */
  lemma CloseOrder(lay: Layout, wb: Workbook)
    requires CloseWorkbook(lay, wb).error.None?
    ensures Paths(CloseWorkbook(lay, wb).log) == Paths(wb.log) + ClosePaths(!SharedStrings.IsEmpty(wb.sst))
  {
    var f := Font(wb.options).value;
    var parts := CloseParts(lay, wb, f);
    assert CloseWorkbook(lay, wb).log == wb.log + PartsLog(parts) + [Close];
    PartsPaths(wb.log, parts);
    PathsSnoc(wb.log + PartsLog(parts), Close);
    ClosePartPaths(lay, wb, f);
  }

  /** A successful close leaves every package part holding exactly the texts written into it. */
  lemma CloseEntries(lay: Layout, wb: Workbook)
    requires CloseWorkbook(lay, wb).error.None?
    ensures Entries(CloseWorkbook(lay, wb).log) == Entries(wb.log) + PartEntries(CloseParts(lay, wb, Font(wb.options).value))
  {
    var parts := CloseParts(lay, wb, Font(wb.options).value);
    assert CloseWorkbook(lay, wb).log == wb.log + PartsLog(parts) + [Close];
    PartsEntries(wb.log, parts);
    EntriesSnoc(wb.log + PartsLog(parts), Close);
  }

  /** A bad font fails after workbook.xml is complete and before styles.xml is opened. */
  lemma FontErrorAfterWorkbook(lay: Layout, wb: Workbook)
    requires NamedPrefix(wb.sheets) == |wb.sheets| && Font(wb.options).Err?
    ensures CloseWorkbook(lay, wb).error == Some(Font(wb.options).error)
    ensures Paths(CloseWorkbook(lay, wb).log) == Paths(wb.log) + [WorkbookPath]
    ensures Entries(CloseWorkbook(lay, wb).log) == Entries(wb.log) + PartEntries([WorkbookPart(lay, wb.sheets)])
  {
    var parts := [WorkbookPart(lay, wb.sheets)];
    assert CloseWorkbook(lay, wb) == Closed(wb.log + PartsLog(parts), Some(Font(wb.options).error));
    PartsPaths(wb.log, parts);
    PartsEntries(wb.log, parts);
  }

  /** A sheet named by a Hash stops workbook.xml at its entry, with the entries before it written. */
  lemma HashNameFails(lay: Layout, wb: Workbook)
    requires NamedPrefix(wb.sheets) < |wb.sheets|
    ensures CloseWorkbook(lay, wb).error == Some(MissingMethod("gsub"))
    ensures Entries(CloseWorkbook(lay, wb).log) == Entries(wb.log) + PartEntries([WorkbookPart(lay, wb.sheets)])
    ensures WorkbookPart(lay, wb.sheets).texts == [Xml.Header, lay.workbookOpen] + SheetLines(wb.sheets)
  {
    var parts := [WorkbookPart(lay, wb.sheets)];
    PartsEntries(wb.log, parts);
    NothingAfter([Xml.Header, lay.workbookOpen] + SheetLines(wb.sheets));
  }

  lemma NothingAfter(texts: seq<string>)
    ensures texts + [] == texts
  {
  }

  /** Without a `:font` option the font is Calibri, size 12, family Swiss (id 2). */
  lemma DefaultFont(options: Cells.Style)
    requires "font" !in options
    ensures Font(options) == Ok(FontSettings("12", "Calibri", 2))
  {
    assert NatToString(12) == "12";
    assert AsciiDowncase("Swiss") == "swiss";
  }

  /** The family is looked up without regard to letter case: "Script" is family 4. */
  lemma ScriptFamily(options: Cells.Style)
    requires options == map["font" := Cells.Hash(map["family" := Cells.Str("Script")])]
    ensures Font(options).Ok? && Font(options).value.familyId == 4
  {
    assert AsciiDowncase("Script") == "script";
  }

  /** Stripping the styles template removes layout only: every other character, the font's values included, stays in order. */
  lemma StylesKeepFont(lay: Layout, f: FontSettings)
    ensures Xml.NonSpace(StylesPart(lay, f).texts[1])
         == Xml.NonSpace(lay.stylesHead) + Xml.NonSpace(Xml.EscapeAttr(f.size)) + Xml.NonSpace(lay.sizeToName)
            + Xml.NonSpace(Xml.EscapeAttr(f.name)) + Xml.NonSpace(lay.nameToFamily) + Xml.NonSpace(NatToString(f.familyId))
            + Xml.NonSpace(lay.stylesTail)
  {
    var a := lay.stylesHead;
    var b := Xml.EscapeAttr(f.size);
    var c := lay.sizeToName;
    var d := Xml.EscapeAttr(f.name);
    var e := lay.nameToFamily;
    var g := NatToString(f.familyId);
    var h := lay.stylesTail;
    Xml.StripKeepsText(StylesBody(lay, f));
    Xml.NonSpaceConcat(a + b + c + d + e + g, h);
    Xml.NonSpaceConcat(a + b + c + d + e, g);
    Xml.NonSpaceConcat(a + b + c + d, e);
    Xml.NonSpaceConcat(a + b + c, d);
    Xml.NonSpaceConcat(a + b, c);
    Xml.NonSpaceConcat(a, b);
  }

  /** An empty workbook relates only its styles, as rId1. */
  lemma EmptyWorkbookRels()
    ensures WorkbookRels(0, false) == [Relationship("rId1", "styles", "styles.xml")]
  {
    Succ.RelIdSmall(1);
    assert DigitChar(1) == '1';
    assert Succ.RelId(1) == "rId1";
    var r := WorkbookRels(0, false);
    assert |r| == 1 && r[0] == Relationship(Succ.RelId(1), "styles", "styles.xml");
  }

  /** An unnamed worksheet without rows, written to a workbook that has n names, gets the next id and its default name. */
  lemma UnnamedSheet(rt: Runtime, wb: Workbook)
    requires DefaultName(wb.sheets) !in wb.sheets
    ensures WriteWorksheet(rt, wb, NoName, map[], []).Ok?
    ensures var r := WriteWorksheet(rt, wb, NoName, map[], []).value;
            && r.sheets == wb.sheets + [DefaultName(wb.sheets)]
            && Paths(r.log) == Paths(wb.log) + [SheetPath(|wb.sheets| + 1)]
  {
    var so := SheetOptionsFor(wb, map[]);
    var p := SheetPath(|wb.sheets| + 1);
    var w := Worksheets.NewWorksheet(wb.log + [AddFile(p)], so);
    assert Worksheets.AddRows(rt, w, []) == Ok(w);
    var r := WriteWorksheet(rt, wb, NoName, map[], []).value;
    assert r.log == (wb.log + [AddFile(p)]) + Appends(Worksheets.HeaderTexts(None) + [Worksheets.Footer]) by {
      AppendsConcat(Worksheets.HeaderTexts(None), [Worksheets.Footer]);
    }
    PathsSnoc(wb.log, AddFile(p));
    PathsAppends(wb.log + [AddFile(p)], Worksheets.HeaderTexts(None) + [Worksheets.Footer]);
  }

  lemma FirstUnnamed(rt: Runtime, wb: Workbook)
    requires wb.sheets == []
    ensures WriteWorksheet(rt, wb, NoName, map[], []).Ok?
    ensures var r := WriteWorksheet(rt, wb, NoName, map[], []).value;
            r.sheets == [Named("Sheet1")] && Paths(r.log) == Paths(wb.log) + [SheetPath(1)]
  {
    FirstDefaultName();
    UnnamedSheet(rt, wb);
  }

  lemma FirstDefaultName()
    ensures DefaultName([]) == Named("Sheet1")
  {
    assert NatToString(1) == "1";
  }

  lemma SecondUnnamed(rt: Runtime, wb: Workbook)
    requires wb.sheets == [Named("Sheet1")]
    ensures WriteWorksheet(rt, wb, NoName, map[], []).Ok?
    ensures var r := WriteWorksheet(rt, wb, NoName, map[], []).value;
            r.sheets == [Named("Sheet1"), Named("Sheet2")] && Paths(r.log) == Paths(wb.log) + [SheetPath(2)]
  {
    assert DefaultName(wb.sheets) == Named("Sheet2") by {
      assert NatToString(2) == "2";
    }
    assert Named("Sheet2") !in wb.sheets by {
      assert "Sheet1"[5] != "Sheet2"[5];
    }
    UnnamedSheet(rt, wb);
  }

  /** Two unnamed worksheets are Sheet1 and Sheet2, written to sheet1.xml and sheet2.xml. */
  lemma TwoUnnamedSheets(rt: Runtime, options: Cells.Style)
    ensures var wb := NewWorkbook(options);
            && WriteWorksheet(rt, wb, NoName, map[], []).Ok?
            && var one := WriteWorksheet(rt, wb, NoName, map[], []).value;
            && WriteWorksheet(rt, one, NoName, map[], []).Ok?
            && var two := WriteWorksheet(rt, one, NoName, map[], []).value;
            && two.sheets == [Named("Sheet1"), Named("Sheet2")]
            && Paths(two.log) == [SheetPath(1), SheetPath(2)]
  {
    var wb := NewWorkbook(options);
    FirstUnnamed(rt, wb);
    var one := WriteWorksheet(rt, wb, NoName, map[], []).value;
    SecondUnnamed(rt, one);
    assert Paths(wb.log) == [];
  }
}
