/**
 * Xlsxtream::Styles::Stylesheet: four interning tables (borders, fills, fonts, xfs), each
 * a Hash that hands out dense ids in first-seen order, the memoised ids of the default,
 * date and date-time styles, `style_id` for a styled cell, and styles.xml.
 */
module Stylesheets {
  import opened Wrappers
  import opened Text
  import opened Interning
  import opened Cells
  import opened Styles
  import Values
  import Xml

  const DefaultNumFmt: int := 0
  const DateNumFmt: int := 164
  const TimeNumFmt: int := 165

  /** The state of a stylesheet. The default font and fill are fixed at construction. */
  datatype Stylesheet = Stylesheet(
    defaultFont: Font,
    defaultFill: Fill,
    borders: seq<Border>,
    fills: seq<Fill>,
    fonts: seq<Font>,
    xfs: seq<Xf>,
    defaultStyle: Option<nat>,
    dateStyle: Option<nat>,
    datetimeStyle: Option<nat>)

  // ---- lookups in the four tables: `@borders[b]`, `@fills[f]`, `@fonts[f]`, `@xfs[x]` ----

  function BorderId(ss: Stylesheet): (r: (Stylesheet, nat))
  {
    var t := InternBy(ss.borders, Itself, Border);
    (ss.(borders := t.0), t.1)
  }

  function FillId(ss: Stylesheet, f: Fill): (r: (Stylesheet, nat))
  {
    var t := InternBy(ss.fills, Itself, f);
    (ss.(fills := t.0), t.1)
  }

  function FontId(ss: Stylesheet, f: Font): (r: (Stylesheet, nat))
  {
    var t := InternBy(ss.fonts, Itself, f);
    (ss.(fonts := t.0), t.1)
  }

  function XfId(ss: Stylesheet, x: Xf): (r: (Stylesheet, nat))
  {
    var t := InternBy(ss.xfs, XfKey, x);
    (ss.(xfs := t.0), t.1)
  }

  // ---- the attribute lists the stylesheet builds ----

  /** The xf of `default_style_id`. */
  function DefaultAttrs(fontId: int, fillId: int, borderId: int): Attrs
  {
    [("numFmtId", DefaultNumFmt), ("fontId", fontId), ("fillId", fillId), ("borderId", borderId)]
  }

  /** The xf of `date_style_id` and `datetime_style_id`, which apply their number format. */
  function FormatAttrs(numFmt: int, fontId: int, fillId: int, borderId: int): Attrs
  {
    [("numFmtId", numFmt), ("fontId", fontId), ("fillId", fillId), ("borderId", borderId), ("applyNumberFormat", 1)]
  }

  /** The xf of `style_id`, in the order it sets the keys. */
  function CellAttrs(numFmt: int, borderId: int, fontId: int, fillId: int, applyFill: bool): Attrs
  {
    [("numFmtId", numFmt), ("borderId", borderId), ("fontId", fontId), ("fillId", fillId)]
      + (if applyFill then [("applyFill", 1)] else [])
  }

  /** The three lists as the maps Xf equality compares. */
  function BaseKey(fontId: int, fillId: int, borderId: int): map<string, int>
  {
    map["numFmtId" := DefaultNumFmt, "fontId" := fontId, "fillId" := fillId, "borderId" := borderId]
  }

  function FormatKey(numFmt: int, fontId: int, fillId: int, borderId: int): map<string, int>
  {
    map["numFmtId" := numFmt, "fontId" := fontId, "fillId" := fillId, "borderId" := borderId, "applyNumberFormat" := 1]
  }

  function CellKey(numFmt: int, borderId: int, fontId: int, fillId: int, applyFill: bool): map<string, int>
  {
    var m := map["numFmtId" := numFmt, "borderId" := borderId, "fontId" := fontId, "fillId" := fillId];
    if applyFill then m["applyFill" := 1] else m
  }

  lemma DefaultXfKey(fontId: int, fillId: int, borderId: int)
    ensures XfKey(NewXf(DefaultAttrs(fontId, fillId, borderId))) == BaseKey(fontId, fillId, borderId)
  {
    var p1, p2, p3, p4 := ("numFmtId", DefaultNumFmt), ("fontId", fontId), ("fillId", fillId), ("borderId", borderId);
    AttrMapSnoc([], p1);
    AttrMapSnoc([p1], p2);
    AttrMapSnoc([p1, p2], p3);
    AttrMapSnoc([p1, p2, p3], p4);
    assert [p1, p2, p3] + [p4] == DefaultAttrs(fontId, fillId, borderId);
    assert [p1, p2] + [p3] == [p1, p2, p3];
    assert [p1] + [p2] == [p1, p2];
    assert [] + [p1] == [p1];
  }

  lemma FormatXfKey(numFmt: int, fontId: int, fillId: int, borderId: int)
    ensures XfKey(NewXf(FormatAttrs(numFmt, fontId, fillId, borderId))) == FormatKey(numFmt, fontId, fillId, borderId)
  {
    var p1, p2, p3, p4, p5 := ("numFmtId", numFmt), ("fontId", fontId), ("fillId", fillId), ("borderId", borderId), ("applyNumberFormat", 1);
    AttrMapSnoc([], p1);
    AttrMapSnoc([p1], p2);
    AttrMapSnoc([p1, p2], p3);
    AttrMapSnoc([p1, p2, p3], p4);
    AttrMapSnoc([p1, p2, p3, p4], p5);
    assert [p1, p2, p3, p4] + [p5] == FormatAttrs(numFmt, fontId, fillId, borderId);
    assert [p1, p2, p3] + [p4] == [p1, p2, p3, p4];
    assert [p1, p2] + [p3] == [p1, p2, p3];
    assert [p1] + [p2] == [p1, p2];
    assert [] + [p1] == [p1];
  }

  lemma CellXfKey(numFmt: int, borderId: int, fontId: int, fillId: int, applyFill: bool)
    ensures XfKey(NewXf(CellAttrs(numFmt, borderId, fontId, fillId, applyFill))) == CellKey(numFmt, borderId, fontId, fillId, applyFill)
  {
    var p1, p2, p3, p4 := ("numFmtId", numFmt), ("borderId", borderId), ("fontId", fontId), ("fillId", fillId);
    var a := [p1, p2, p3, p4];
    AttrMapSnoc([], p1);
    AttrMapSnoc([p1], p2);
    AttrMapSnoc([p1, p2], p3);
    AttrMapSnoc([p1, p2, p3], p4);
    assert [p1, p2, p3] + [p4] == a;
    assert [p1, p2] + [p3] == [p1, p2, p3];
    assert [p1] + [p2] == [p1, p2];
    assert [] + [p1] == [p1];
    if applyFill {
      AttrMapSnoc(a, ("applyFill", 1));
      assert CellAttrs(numFmt, borderId, fontId, fillId, true) == a + [("applyFill", 1)];
    } else {
      assert CellAttrs(numFmt, borderId, fontId, fillId, false) == a;
    }
  }

  // ---- memoised ids ----

  /** The default style's attributes (no number format given) or a date style's. */
  function StyleAttrs(numFmt: Option<int>, fontId: int, fillId: int, borderId: int): Attrs
  {
    if numFmt.None? then DefaultAttrs(fontId, fillId, borderId) else FormatAttrs(numFmt.value, fontId, fillId, borderId)
  }

  /** The lookups the three memoised ids share: default font, default fill, border, then the xf. */
  function DefaultRefsXf(ss: Stylesheet, numFmt: Option<int>): (r: (Stylesheet, nat))
  {
    var font := FontId(ss, ss.defaultFont);
    var fill := FillId(font.0, ss.defaultFill);
    var border := BorderId(fill.0);
    XfId(border.0, NewXf(StyleAttrs(numFmt, font.1, fill.1, border.1)))
  }

  /** `default_style_id`: computed and stored on the first call, then returned as stored. */
  function DefaultStyleId(ss: Stylesheet): (r: (Stylesheet, nat))
  {
    if ss.defaultStyle.Some? then (ss, ss.defaultStyle.value)
    else
      var xf := DefaultRefsXf(ss, None);
      (xf.0.(defaultStyle := Some(xf.1)), xf.1)
  }

  /** `date_style_id`. */
  function DateStyleId(ss: Stylesheet): (r: (Stylesheet, nat))
  {
    if ss.dateStyle.Some? then (ss, ss.dateStyle.value)
    else
      var xf := DefaultRefsXf(ss, Some(DateNumFmt));
      (xf.0.(dateStyle := Some(xf.1)), xf.1)
  }

  /** `datetime_style_id`. */
  function DatetimeStyleId(ss: Stylesheet): (r: (Stylesheet, nat))
  {
    if ss.datetimeStyle.Some? then (ss, ss.datetimeStyle.value)
    else
      var xf := DefaultRefsXf(ss, Some(TimeNumFmt));
      (xf.0.(datetimeStyle := Some(xf.1)), xf.1)
  }

  // ---- construction ----

  /** `options[key]` when it is a Hash: `extract_styles_from` keeps only those. */
  function HashOption(options: Style, key: string): (r: Option<Options>)
    ensures r.Some? <==> key in options && options[key].Hash?
  {
    if key in options && options[key].Hash? then Some(options[key].options) else None
  }

  /** The options the default font or fill is built from: the global Hash, or none. */
  function GlobalOptions(options: Style, key: string): (o: Options)
    ensures key !in options ==> o == map[]
  {
    var h := HashOption(options, key);
    if h.Some? then h.value else map[]
  }

  /** `Fill.new(@global_options[:fill])` when the global fill is a Hash, else `Fill.new`. */
  function GlobalFill(options: Style): Result<Fill>
  {
    NewFill(GlobalOptions(options, "fill"))
  }

  function GlobalFont(options: Style): Result<Font>
  {
    NewFont(GlobalOptions(options, "font"))
  }

  /**
   * `Stylesheet.new(global_options)`: the default border, fill and font are interned in
   * that order, then the default, date and date-time styles.
   */
  function NewStylesheet(options: Style): (r: Result<Stylesheet>)
  {
    var fill :- GlobalFill(options);
    var font :- GlobalFont(options);
    var empty := Stylesheet(font, fill, [], [], [], [], None, None, None);
    var s1 := BorderId(empty).0;
    var s2 := FillId(s1, fill).0;
    var s3 := FontId(s2, font).0;
    var s4 := DefaultStyleId(s3).0;
    var s5 := DateStyleId(s4).0;
    Ok(DatetimeStyleId(s5).0)
  }

  // ---- style_id ----

  /** The number format `style_id` picks by the content's class; a DateTime is a Date. */
  function NumFmtOf(v: Values.Value): (n: int)
    ensures n == DateNumFmt <==> v.Date? || v.DateTime?
    ensures n == TimeNumFmt <==> v.Time?
  {
    if v.Date? || v.DateTime? then DateNumFmt else if v.Time? then TimeNumFmt else DefaultNumFmt
  }

  /** `style[key] || {}` handed to a keyword-only constructor: a truthy non-Hash is an ArgumentError. */
  function OptionsAt(style: Style, key: string): (r: Result<Options>)
    ensures key !in style ==> r == Ok(map[])
    ensures r.Err? <==> key in style && style[key].Plain? && Truthy(style[key].value)
  {
    if key !in style then Ok(map[])
    else match style[key]
      case Hash(o) => Ok(o)
      case Plain(v) => if Truthy(v) then Err(NotAHash) else Ok(map[])
  }

  /** `Font.new(cell.style[:font] || {})`. */
  function CellFont(c: Cell): Result<Font>
  {
    var o :- OptionsAt(c.style, "font");
    NewFont(o)
  }

  /** `Fill.new(cell.style[:fill] || {})`. */
  function CellFill(c: Cell): Result<Fill>
  {
    var o :- OptionsAt(c.style, "fill");
    NewFill(o)
  }

  /** `style_id(cell)`: the id of the xf the cell's content and style resolve to. */
  function StyleId(ss: Stylesheet, c: Cell): (r: Result<(Stylesheet, nat)>)
    ensures r.Err? <==> CellFont(c).Err? || CellFill(c).Err?
    ensures CellFont(c).Err? ==> r == Err(CellFont(c).error)
  {
    var border := BorderId(ss);
    var font :- CellFont(c);
    var fontId := FontId(border.0, font);
    var fill :- CellFill(c);
    var fillId := FillId(fontId.0, fill);
    var defaultFillId := FillId(fillId.0, fillId.0.defaultFill);
    var attrs := CellAttrs(NumFmtOf(c.content), border.1, fontId.1, fillId.1, fillId.1 != defaultFillId.1);
    Ok(XfId(defaultFillId.0, NewXf(attrs)))
  }

  // ---- the invariant ----

  /** Every table reference a key makes is an id its table has handed out. */
  predicate RefsInRange(m: map<string, int>, fonts: nat, fills: nat, borders: nat)
  {
    ("fontId" in m ==> 0 <= m["fontId"] < fonts)
    && ("fillId" in m ==> 0 <= m["fillId"] < fills)
    && ("borderId" in m ==> 0 <= m["borderId"] < borders)
  }

  /**
   * A constructed stylesheet: one border; the default fill and font first in their tables;
   * no key twice in any table; the default, date and date-time styles at ids 0, 1 and 2;
   * every xf referring only to fonts, fills and borders already in the tables.
   */
  predicate Valid(ss: Stylesheet)
  {
    && ss.borders == [Border]
    && |ss.fills| >= 1 && ss.fills[0] == ss.defaultFill && DistinctKeys(ss.fills, Itself)
    && |ss.fonts| >= 1 && ss.fonts[0] == ss.defaultFont && DistinctKeys(ss.fonts, Itself)
    && |ss.xfs| >= 3 && DistinctKeys(ss.xfs, XfKey)
    && ss.defaultStyle == Some(0) && ss.dateStyle == Some(1) && ss.datetimeStyle == Some(2)
    && XfKey(ss.xfs[0]) == BaseKey(0, 0, 0)
    && XfKey(ss.xfs[1]) == FormatKey(DateNumFmt, 0, 0, 0)
    && XfKey(ss.xfs[2]) == FormatKey(TimeNumFmt, 0, 0, 0)
    && forall i | 0 <= i < |ss.xfs| :: RefsInRange(XfKey(ss.xfs[i]), |ss.fonts|, |ss.fills|, |ss.borders|)
  }

  lemma FoundFirst<T, K>(entries: seq<T>, key: T -> K, x: T)
    requires |entries| > 0 && key(entries[0]) == key(x)
    ensures InternBy(entries, key, x) == (entries, 0)
  {
  }

  lemma AppendedNew<T, K>(entries: seq<T>, key: T -> K, x: T)
    requires forall j | 0 <= j < |entries| :: key(entries[j]) != key(x)
    ensures InternBy(entries, key, x) == (entries + [x], |entries|)
  {
  }

  /** The default, date and date-time xfs, with every reference at id 0. */
  function DefaultXf(): Xf { NewXf(DefaultAttrs(0, 0, 0)) }
  function DateXf(): Xf { NewXf(FormatAttrs(DateNumFmt, 0, 0, 0)) }
  function DatetimeXf(): Xf { NewXf(FormatAttrs(TimeNumFmt, 0, 0, 0)) }

  /** The tables right after the default border, fill and font went in. */
  predicate Seeded(s: Stylesheet)
  {
    s.borders == [Border] && s.fills == [s.defaultFill] && s.fonts == [s.defaultFont]
  }

  /** In a seeded stylesheet every default reference is id 0 and the tables stay as they are. */
  lemma SeededRefs(s: Stylesheet, numFmt: Option<int>)
    requires Seeded(s)
    ensures DefaultRefsXf(s, numFmt) == XfId(s, NewXf(StyleAttrs(numFmt, 0, 0, 0)))
  {
    FoundFirst(s.fonts, Itself, s.defaultFont);
    FoundFirst(s.fills, Itself, s.defaultFill);
    FoundFirst(s.borders, Itself, Border);
  }

  /** The three keys differ pairwise, in their number formats. */
  lemma BasicKeys()
    ensures XfKey(DefaultXf()) == BaseKey(0, 0, 0)
    ensures XfKey(DateXf()) == FormatKey(DateNumFmt, 0, 0, 0)
    ensures XfKey(DatetimeXf()) == FormatKey(TimeNumFmt, 0, 0, 0)
    ensures XfKey(DefaultXf()) != XfKey(DateXf()) && XfKey(DefaultXf()) != XfKey(DatetimeXf())
    ensures XfKey(DateXf()) != XfKey(DatetimeXf())
  {
    DefaultXfKey(0, 0, 0);
    FormatXfKey(DateNumFmt, 0, 0, 0);
    FormatXfKey(TimeNumFmt, 0, 0, 0);
    KeyFormats(DateNumFmt, 0, 0, 0);
    KeyFormats(TimeNumFmt, 0, 0, 0);
  }

  lemma KeyFormats(numFmt: int, fontId: int, fillId: int, borderId: int)
    ensures BaseKey(fontId, fillId, borderId)["numFmtId"] == DefaultNumFmt
    ensures FormatKey(numFmt, fontId, fillId, borderId)["numFmtId"] == numFmt
  {
  }

  lemma SnocOne<T>(a: seq<T>, x: T, y: T)
    requires a == [x]
    ensures a + [y] == [x, y]
  {
  }

  lemma SnocTwo<T>(a: seq<T>, x: T, y: T, z: T)
    requires a == [x, y]
    ensures a + [z] == [x, y, z]
  {
  }

  /** A memoised style whose xf is new goes at the end of the xf table. */
  lemma NewStyleAppends(s: Stylesheet, numFmt: Option<int>, x: Xf)
    requires Seeded(s) && x == NewXf(StyleAttrs(numFmt, 0, 0, 0))
    requires forall j | 0 <= j < |s.xfs| :: XfKey(s.xfs[j]) != XfKey(x)
    ensures DefaultRefsXf(s, numFmt) == (s.(xfs := s.xfs + [x]), |s.xfs|)
  {
    SeededRefs(s, numFmt);
    AppendedNew(s.xfs, XfKey, x);
  }

  lemma DefaultStep(s: Stylesheet)
    requires Seeded(s) && s.xfs == [] && s.defaultStyle.None?
    ensures DefaultStyleId(s).0 == s.(xfs := s.xfs + [DefaultXf()], defaultStyle := Some(0))
  {
    NewStyleAppends(s, None, DefaultXf());
  }

  lemma DateStep(s: Stylesheet, x0: Xf)
    requires Seeded(s) && s.xfs == [x0] && XfKey(x0) == BaseKey(0, 0, 0) && s.dateStyle.None?
    ensures DateStyleId(s).0 == s.(xfs := s.xfs + [DateXf()], dateStyle := Some(1))
  {
    BasicKeys();
    NewStyleAppends(s, Some(DateNumFmt), DateXf());
  }

  lemma DatetimeStep(s: Stylesheet, x0: Xf, x1: Xf)
    requires Seeded(s) && s.xfs == [x0, x1] && s.datetimeStyle.None?
    requires XfKey(x0) == BaseKey(0, 0, 0) && XfKey(x1) == FormatKey(DateNumFmt, 0, 0, 0)
    ensures DatetimeStyleId(s).0 == s.(xfs := s.xfs + [DatetimeXf()], datetimeStyle := Some(2))
  {
    DatetimeFresh(s.xfs, x0, x1);
    NewStyleAppends(s, Some(TimeNumFmt), DatetimeXf());
    assert |s.xfs| == 2;
  }

  /** The date-time xf's key differs from the default's and the date's. */
  lemma DatetimeFresh(xfs: seq<Xf>, x0: Xf, x1: Xf)
    requires xfs == [x0, x1]
    requires XfKey(x0) == BaseKey(0, 0, 0) && XfKey(x1) == FormatKey(DateNumFmt, 0, 0, 0)
    ensures forall j | 0 <= j < |xfs| :: XfKey(xfs[j]) != XfKey(DatetimeXf())
  {
    FormatXfKey(TimeNumFmt, 0, 0, 0);
    KeyFormats(DateNumFmt, 0, 0, 0);
    KeyFormats(TimeNumFmt, 0, 0, 0);
    assert XfKey(DatetimeXf())["numFmtId"] == TimeNumFmt;
  }

  lemma SeededValid(s: Stylesheet, x0: Xf, x1: Xf, x2: Xf)
    requires Seeded(s) && s.xfs == [x0, x1, x2]
    requires XfKey(x0) == BaseKey(0, 0, 0) && XfKey(x1) == FormatKey(DateNumFmt, 0, 0, 0)
    requires XfKey(x2) == FormatKey(TimeNumFmt, 0, 0, 0)
    requires s.defaultStyle == Some(0) && s.dateStyle == Some(1) && s.datetimeStyle == Some(2)
    ensures Valid(s)
  {
    KeyFormats(DateNumFmt, 0, 0, 0);
    KeyFormats(TimeNumFmt, 0, 0, 0);
  }

  /**
   * Construction fails exactly when the global fill or font does, and otherwise leaves one
   * border, one fill, one font and three xfs: default 0, date 1, date-time 2.
   */
  lemma NewStylesheetValid(options: Style)
    ensures NewStylesheet(options).Ok? <==> GlobalFill(options).Ok? && GlobalFont(options).Ok?
    ensures NewStylesheet(options).Ok? ==>
      var ss := NewStylesheet(options).value;
      Valid(ss) && |ss.fills| == 1 && |ss.fonts| == 1 && ss.xfs == [DefaultXf(), DateXf(), DatetimeXf()]
      && ss.defaultFill == GlobalFill(options).value && ss.defaultFont == GlobalFont(options).value
  {
    if GlobalFill(options).Ok? && GlobalFont(options).Ok? {
      var fill := GlobalFill(options).value;
      var font := GlobalFont(options).value;
      var empty := Stylesheet(font, fill, [], [], [], [], None, None, None);
      var s1 := BorderId(empty).0;
      var s2 := FillId(s1, fill).0;
      var s3 := FontId(s2, font).0;
      assert Seeded(s3) && s3.xfs == [];
      var x0, x1, x2 := DefaultXf(), DateXf(), DatetimeXf();
      BasicKeys();
      DefaultStep(s3);
      var s4 := DefaultStyleId(s3).0;
      assert s4.xfs == [x0];
      DateStep(s4, x0);
      var s5 := DateStyleId(s4).0;
      SnocOne(s4.xfs, x0, x1);
      DatetimeStep(s5, x0, x1);
      var s6 := DatetimeStyleId(s5).0;
      SnocTwo(s5.xfs, x0, x1, x2);
      SeededValid(s6, x0, x1, x2);
      assert NewStylesheet(options) == Ok(s6);
    }
  }

  // ---- memoisation and style_id ----

  /** On a constructed stylesheet the three memoised ids are 0, 1 and 2 and change nothing. */
  lemma MemoisedIds(ss: Stylesheet)
    requires Valid(ss)
    ensures DefaultStyleId(ss) == (ss, 0) && DateStyleId(ss) == (ss, 1) && DatetimeStyleId(ss) == (ss, 2)
  {
  }

  /** The later stylesheet keeps the defaults, the memos and every entry of the earlier one. */
  predicate Extends(ss: Stylesheet, t: Stylesheet)
  {
    && t.defaultFont == ss.defaultFont && t.defaultFill == ss.defaultFill
    && t.defaultStyle == ss.defaultStyle && t.dateStyle == ss.dateStyle && t.datetimeStyle == ss.datetimeStyle
    && t.borders == ss.borders && ss.fills <= t.fills && ss.fonts <= t.fonts && ss.xfs <= t.xfs
  }

  /** Growing the tables keeps the invariant as long as the new xfs refer to stored entries. */
  lemma ExtendsValid(ss: Stylesheet, t: Stylesheet)
    requires Valid(ss) && Extends(ss, t)
    requires DistinctKeys(t.fills, Itself) && DistinctKeys(t.fonts, Itself) && DistinctKeys(t.xfs, XfKey)
    requires forall i | |ss.xfs| <= i < |t.xfs| :: RefsInRange(XfKey(t.xfs[i]), |t.fonts|, |t.fills|, |t.borders|)
    ensures Valid(t)
  {
    assert t.fills[0] == ss.fills[0] && t.fonts[0] == ss.fonts[0];
    assert t.xfs[0] == ss.xfs[0] && t.xfs[1] == ss.xfs[1] && t.xfs[2] == ss.xfs[2];
    forall i | 0 <= i < |t.xfs| ensures RefsInRange(XfKey(t.xfs[i]), |t.fonts|, |t.fills|, |t.borders|) {
      if i < |ss.xfs| {
        assert t.xfs[i] == ss.xfs[i];
        assert RefsInRange(XfKey(ss.xfs[i]), |ss.fonts|, |ss.fills|, |ss.borders|);
      }
    }
  }

  /** The ids `style_id` hands out on its way to the xf: font id, fill id, and the state after both. */
  lemma StyleRefs(ss: Stylesheet, font: Font, fill: Fill)
    requires Valid(ss)
    ensures var s1 := FontId(BorderId(ss).0, font);
      var s2 := FillId(s1.0, fill);
      && BorderId(ss) == (ss, 0)
      && s2.0 == ss.(fonts := s2.0.fonts, fills := s2.0.fills)
      && ss.fonts <= s2.0.fonts && |s2.0.fonts| <= |ss.fonts| + 1 && DistinctKeys(s2.0.fonts, Itself)
      && ss.fills <= s2.0.fills && |s2.0.fills| <= |ss.fills| + 1 && DistinctKeys(s2.0.fills, Itself)
      && s1.1 < |s2.0.fonts| && s2.0.fonts[s1.1] == font && FindBy(s2.0.fonts, Itself, font) == s1.1
      && s2.1 < |s2.0.fills| && s2.0.fills[s2.1] == fill && FindBy(s2.0.fills, Itself, fill) == s2.1
      && FillId(s2.0, ss.defaultFill) == (s2.0, 0)
      && (s2.1 != 0 <==> fill != ss.defaultFill)
  {
    FoundFirst(ss.borders, Itself, Border);
    InternGrows(ss.fonts, Itself, font);
    InternGrows(ss.fills, Itself, fill);
    var s2 := FillId(FontId(ss, font).0, fill);
    assert s2.0.fills[0] == ss.defaultFill;
    FoundFirst(s2.0.fills, Itself, ss.defaultFill);
  }

  /** The xf `style_id` builds for a cell with the given font and fill ids. */
  function CellXf(c: Cell, fontId: nat, fillId: nat): Xf
  {
    NewXf(CellAttrs(NumFmtOf(c.content), 0, fontId, fillId, fillId != 0))
  }

  lemma StyleIdSteps(ss: Stylesheet, c: Cell)
    requires Valid(ss) && CellFont(c).Ok? && CellFill(c).Ok?
    ensures var s1 := FontId(ss, CellFont(c).value);
      var s2 := FillId(s1.0, CellFill(c).value);
      StyleId(ss, c) == Ok(XfId(s2.0, CellXf(c, s1.1, s2.1)))
  {
    StyleRefs(ss, CellFont(c).value, CellFill(c).value);
  }

  /** Interning an xf whose references are in range: the invariant holds and the xf is new at the end or found. */
  lemma XfStep(ss: Stylesheet, s2: Stylesheet, x: Xf)
    requires Valid(ss) && Extends(ss, s2) && s2.xfs == ss.xfs
    requires DistinctKeys(s2.fills, Itself) && DistinctKeys(s2.fonts, Itself)
    requires RefsInRange(XfKey(x), |s2.fonts|, |s2.fills|, |s2.borders|)
    ensures var (t, id) := XfId(s2, x);
      && Valid(t) && Extends(ss, t) && t.fonts == s2.fonts && t.fills == s2.fills
      && id < |t.xfs| && XfKey(t.xfs[id]) == XfKey(x)
      && ((id < |ss.xfs| && t.xfs == ss.xfs)
          || (id == |ss.xfs| && t.xfs == ss.xfs + [t.xfs[id]]
              && forall j | 0 <= j < |ss.xfs| :: XfKey(ss.xfs[j]) != XfKey(t.xfs[id])))
  {
    InternGrows(s2.xfs, XfKey, x);
    var t := XfId(s2, x).0;
    ExtendsValid(ss, t);
  }

  lemma CellXfRefs(c: Cell, fontId: nat, fillId: nat, fonts: nat, fills: nat, applyFill: bool)
    requires fontId < fonts && fillId < fills && (applyFill <==> fillId != 0)
    ensures XfKey(CellXf(c, fontId, fillId)) == CellKey(NumFmtOf(c.content), 0, fontId, fillId, applyFill)
    ensures RefsInRange(XfKey(CellXf(c, fontId, fillId)), fonts, fills, 1)
  {
    CellXfKey(NumFmtOf(c.content), 0, fontId, fillId, fillId != 0);
  }

  /**
   * `style_id` on a constructed stylesheet: the invariant holds afterwards, no entry moves,
   * and the id names an xf with the content's number format, the only border, the cell's
   * font and fill, and applyFill exactly when the fill is not the default. The xf is new
   * and goes at the end, or an equal one was there and keeps its id.
   */
  lemma StyleIdValid(ss: Stylesheet, c: Cell)
    requires Valid(ss) && StyleId(ss, c).Ok?
    ensures var (t, id) := StyleId(ss, c).value;
      var font := CellFont(c).value;
      var fill := CellFill(c).value;
      var fo := FindBy(t.fonts, Itself, font);
      var fi := FindBy(t.fills, Itself, fill);
      && Valid(t) && Extends(ss, t) && |t.fonts| <= |ss.fonts| + 1 && |t.fills| <= |ss.fills| + 1
      && fo < |t.fonts| && t.fonts[fo] == font && fi < |t.fills| && t.fills[fi] == fill
      && id < |t.xfs| && XfKey(t.xfs[id]) == CellKey(NumFmtOf(c.content), 0, fo, fi, fill != ss.defaultFill)
      && ((id < |ss.xfs| && t.xfs == ss.xfs)
          || (id == |ss.xfs| && t.xfs == ss.xfs + [t.xfs[id]]
              && forall j | 0 <= j < |ss.xfs| :: XfKey(ss.xfs[j]) != XfKey(t.xfs[id])))
  {
    var font, fill := CellFont(c).value, CellFill(c).value;
    StyleRefs(ss, font, fill);
    StyleIdSteps(ss, c);
    var s1 := FontId(ss, font);
    var s2 := FillId(s1.0, fill);
    CellXfRefs(c, s1.1, s2.1, |s2.0.fonts|, |s2.0.fills|, fill != ss.defaultFill);
    XfStep(ss, s2.0, CellXf(c, s1.1, s2.1));
  }

  lemma NoNumberFormatFlag(numFmt: int, borderId: int, fontId: int, fillId: int, applyFill: bool)
    ensures "applyNumberFormat" !in CellKey(numFmt, borderId, fontId, fillId, applyFill)
    ensures "applyNumberFormat" in FormatKey(numFmt, fontId, fillId, borderId)
  {
  }

  /** `style_id` never returns the date styles: its xfs do not set applyNumberFormat. */
  lemma StyleIdNotDateStyle(ss: Stylesheet, c: Cell)
    requires Valid(ss) && StyleId(ss, c).Ok?
    ensures StyleId(ss, c).value.1 != 1 && StyleId(ss, c).value.1 != 2
  {
    StyleIdValid(ss, c);
    var t := StyleId(ss, c).value.0;
    var id := StyleId(ss, c).value.1;
    var fo := FindBy(t.fonts, Itself, CellFont(c).value);
    var fi := FindBy(t.fills, Itself, CellFill(c).value);
    NoNumberFormatFlag(NumFmtOf(c.content), 0, fo, fi, CellFill(c).value != ss.defaultFill);
    NoNumberFormatFlag(DateNumFmt, 0, 0, 0, false);
    NoNumberFormatFlag(TimeNumFmt, 0, 0, 0, false);
  }

  /** Asking again for a cell's style returns the same id and changes nothing. */
  lemma StyleIdRepeat(ss: Stylesheet, c: Cell)
    requires Valid(ss) && StyleId(ss, c).Ok?
    ensures var (t, id) := StyleId(ss, c).value; StyleId(t, c) == Ok((t, id))
  {
    StyleIdValid(ss, c);
    var (t, id) := StyleId(ss, c).value;
    var font, fill := CellFont(c).value, CellFill(c).value;
    var fo := FindBy(t.fonts, Itself, font);
    var fi := FindBy(t.fills, Itself, fill);
    FoundAt(t.fonts, Itself, font, fo);
    FoundAt(t.fills, Itself, fill, fi);
    StyleRefs(t, font, fill);
    StyleIdSteps(t, c);
    var x := CellXf(c, fo, fi);
    CellXfKey(NumFmtOf(c.content), 0, fo, fi, fi != 0);
    FoundAt(t.xfs, XfKey, x, id);
  }

  lemma DefaultCellXf(c: Cell)
    requires NumFmtOf(c.content) == DefaultNumFmt
    ensures XfKey(CellXf(c, 0, 0)) == BaseKey(0, 0, 0)
  {
    CellXfKey(DefaultNumFmt, 0, 0, 0, false);
    assert CellKey(DefaultNumFmt, 0, 0, 0, false) == BaseKey(0, 0, 0);
  }

  /** A cell with the default font and fill and no number format resolves to the default style. */
  lemma StyleIdDefault(ss: Stylesheet, c: Cell)
    requires Valid(ss)
    requires CellFont(c) == Ok(ss.defaultFont) && CellFill(c) == Ok(ss.defaultFill)
    requires NumFmtOf(c.content) == DefaultNumFmt
    ensures StyleId(ss, c) == Ok((ss, 0))
  {
    FoundFirst(ss.fonts, Itself, ss.defaultFont);
    FoundFirst(ss.fills, Itself, ss.defaultFill);
    StyleIdSteps(ss, c);
    DefaultCellXf(c);
    FoundFirst(ss.xfs, XfKey, CellXf(c, 0, 0));
  }

  /** A cell style that gives `style_id` what the global options gave the defaults resolves to the default style. */
  lemma SameAsGlobal(options: Style, c: Cell)
    requires NewStylesheet(options).Ok?
    requires OptionsAt(c.style, "font") == Ok(GlobalOptions(options, "font"))
    requires OptionsAt(c.style, "fill") == Ok(GlobalOptions(options, "fill"))
    requires NumFmtOf(c.content) == DefaultNumFmt
    ensures var ss := NewStylesheet(options).value;
      StyleId(ss, c) == Ok((ss, 0)) && DefaultStyleId(ss) == (ss, 0)
  {
    NewStylesheetValid(options);
    var ss := NewStylesheet(options).value;
    CellLikeGlobal(options, c);
    StyleIdDefault(ss, c);
  }

  /** A cell whose font and fill options are the global ones gets the global font and fill. */
  lemma CellLikeGlobal(options: Style, c: Cell)
    requires OptionsAt(c.style, "font") == Ok(GlobalOptions(options, "font"))
    requires OptionsAt(c.style, "fill") == Ok(GlobalOptions(options, "fill"))
    ensures CellFont(c) == GlobalFont(options) && CellFill(c) == GlobalFill(options)
  {
  }

  /** Where the options' entry is a Hash or nothing, `OptionsAt` and `GlobalOptions` agree. */
  lemma GlobalOptionsAt(options: Style, key: string)
    requires OptionsAt(options, key).Ok?
    ensures OptionsAt(options, key) == Ok(GlobalOptions(options, key))
  {
  }

  /**
   * Styling a cell with the very Hash the workbook was given: when its font and fill
   * entries are Hashes (or absent, or nil), the cell gets the default style and no new xf.
   */
  lemma GlobalOptionsCell(options: Style, c: Cell)
    requires NewStylesheet(options).Ok? && c.style == options
    requires OptionsAt(options, "font").Ok? && OptionsAt(options, "fill").Ok?
    requires NumFmtOf(c.content) == DefaultNumFmt
    ensures var ss := NewStylesheet(options).value;
      StyleId(ss, c) == Ok((ss, 0)) && |ss.xfs| == 3
  {
    GlobalOptionsAt(options, "font");
    GlobalOptionsAt(options, "fill");
    NewStylesheetValid(options);
    SameAsGlobal(options, c);
  }

  /** Without :font and :fill keys, a cell resolves to style 0 however many other keys make it styled. */
  lemma UnsupportedKeysOnly(c: Cell)
    requires "font" !in c.style && "fill" !in c.style
    requires NumFmtOf(c.content) == DefaultNumFmt
    ensures NewStylesheet(map[]).Ok?
    ensures StyleId(NewStylesheet(map[]).value, c) == Ok((NewStylesheet(map[]).value, 0))
  {
    var o: Options := map[];
    NewFontDefaults(o);
    assert NewFill(o).Ok?;
    NewStylesheetValid(map[]);
    SameAsGlobal(map[], c);
  }

  /** A cell styled only under keys `style_id` does not read is `styled?`, yet gets style 0. */
  lemma UnsupportedOptionsStyled(c: Cell)
    requires c.style == map["foo" := Hash(map["color" := Str("FF0000")]),
                            "bar" := Hash(map["bold" := Bool(true), "italic" := Bool(true)])]
    requires NumFmtOf(c.content) == DefaultNumFmt
    ensures Styled(c) && NewStylesheet(map[]).Ok?
    ensures StyleId(NewStylesheet(map[]).value, c) == Ok((NewStylesheet(map[]).value, 0))
  {
    assert "foo" in c.style;
    UnsupportedKeysOnly(c);
  }

  /** A bold italic font and a red fill, under the keys `style_id` reads. */
  function RedBoldItalic(): Style
  {
    map["fill" := Hash(map["color" := Str("FF0000")]), "font" := Hash(map["bold" := Bool(true), "italic" := Bool(true)])]
  }

  lemma RedBoldItalicParts(c: Cell)
    requires c.style == RedBoldItalic()
    ensures CellFont(c).Ok? && CellFont(c).value.bold == Bool(true)
    ensures CellFill(c) == Ok(Fill(Str("solid"), Str("FF0000")))
  {
    RedBoldItalicFont(c);
    RedBoldItalicFill(c);
  }

  lemma RedBoldItalicFont(c: Cell)
    requires c.style == RedBoldItalic()
    ensures CellFont(c).Ok? && CellFont(c).value.bold == Bool(true)
  {
    var fo: Options := map["bold" := Bool(true), "italic" := Bool(true)];
    assert c.style["font"] == Hash(fo);
    assert fo.Keys <= FontKeywords && "family" !in fo && fo["bold"] == Bool(true);
  }

  lemma RedBoldItalicFill(c: Cell)
    requires c.style == RedBoldItalic()
    ensures CellFill(c) == Ok(Fill(Str("solid"), Str("FF0000")))
  {
    var fi: Options := map["color" := Str("FF0000")];
    assert c.style["fill"] == Hash(fi);
    ColorOnlyFill("FF0000", fi);
  }

  /** On a fresh stylesheet a cell with a new font and a new fill gets the next id, 3, and keeps it. */
  lemma NewStyleGetsNextId(c: Cell)
    requires c.style == RedBoldItalic() && NumFmtOf(c.content) == DefaultNumFmt
    ensures NewStylesheet(map[]).Ok?
    ensures var ss := NewStylesheet(map[]).value;
      StyleId(ss, c).Ok? && StyleId(ss, c).value.1 == 3
      && StyleId(StyleId(ss, c).value.0, c) == Ok(StyleId(ss, c).value)
  {
    var o: Options := map[];
    NewFontDefaults(o);
    assert NewFill(o).Ok?;
    NewStylesheetValid(map[]);
    var ss := NewStylesheet(map[]).value;
    RedBoldItalicParts(c);
    assert CellFont(c).value != ss.defaultFont;
    SeededNextId(ss, c);
  }

  /** With three xfs in place, a cell whose font is not the default one gets id 3. */
  lemma SeededNextId(ss: Stylesheet, c: Cell)
    requires Valid(ss) && |ss.xfs| == 3 && NumFmtOf(c.content) == DefaultNumFmt
    requires CellFont(c).Ok? && CellFill(c).Ok? && CellFont(c).value != ss.defaultFont
    ensures StyleId(ss, c).Ok? && StyleId(ss, c).value.1 == 3
    ensures StyleId(StyleId(ss, c).value.0, c) == Ok(StyleId(ss, c).value)
  {
    StyleIdValid(ss, c);
    StyleIdRepeat(ss, c);
    var t := StyleId(ss, c).value.0;
    var id := StyleId(ss, c).value.1;
    var fo := FindBy(t.fonts, Itself, CellFont(c).value);
    var fi := FindBy(t.fills, Itself, CellFill(c).value);
    assert fo != 0;
    NewKeyFontOne(ss, t, id, fo, fi);
  }

  lemma NewKeyFontOne(ss: Stylesheet, t: Stylesheet, id: nat, fo: nat, fi: nat)
    requires Valid(ss) && |ss.xfs| == 3 && fo != 0
    requires id < |t.xfs| && XfKey(t.xfs[id]) == CellKey(DefaultNumFmt, 0, fo, fi, fi != 0)
    requires (id < |ss.xfs| && t.xfs == ss.xfs) || id == |ss.xfs|
    ensures id == 3
  {
  }

  // ---- styles.xml ----

  /** A counted list element: `<tag count="n">` + the n entries' XML + `</tag>`. */
  function Section(tag: string, parts: seq<string>): string
  {
    "<" + tag + " count=\"" + NatToString(|parts|) + "\">" + Join(parts) + "</" + tag + ">"
  }

  /** A new table entry shows up last in its section, and the count goes up by one. */
  lemma SectionAppend(tag: string, parts: seq<string>, p: string)
    ensures Section(tag, parts + [p])
      == "<" + tag + " count=\"" + NatToString(|parts| + 1) + "\">" + Join(parts) + p + "</" + tag + ">"
  {
    var q := parts + [p];
    assert q[..|q| - 1] == parts;
    var open := "<" + tag + " count=\"" + NatToString(|q|) + "\">";
    var close := "</" + tag + ">";
    assert Join(q) == Join(parts) + p;
    assert open + (Join(parts) + p) == open + Join(parts) + p;
  }

  function FontTexts(fonts: seq<Font>): (r: seq<string>)
    ensures |r| == |fonts| && forall i | 0 <= i < |fonts| :: r[i] == FontXml(fonts[i])
  {
    seq(|fonts|, i requires 0 <= i < |fonts| => FontXml(fonts[i]))
  }

  function FillTexts(fills: seq<Fill>): (r: seq<string>)
    ensures |r| == |fills| && forall i | 0 <= i < |fills| :: r[i] == FillXml(fills[i])
  {
    seq(|fills|, i requires 0 <= i < |fills| => FillXml(fills[i]))
  }

  function BorderTexts(borders: seq<Border>): (r: seq<string>)
    ensures |r| == |borders| && forall i | 0 <= i < |borders| :: r[i] == BorderXml(borders[i])
  {
    seq(|borders|, i requires 0 <= i < |borders| => BorderXml(borders[i]))
  }

  function XfTexts(xfs: seq<Xf>): (r: seq<string>)
    ensures |r| == |xfs| && forall i | 0 <= i < |xfs| :: r[i] == XfXml(xfs[i])
  {
    seq(|xfs|, i requires 0 <= i < |xfs| => XfXml(xfs[i]))
  }

  const NumFmts: string :=
    "<numFmts count=\"2\">"
    + "<numFmt numFmtId=\"164\" formatCode=\"yyyy\\-mm\\-dd\"/>"
    + "<numFmt numFmtId=\"165\" formatCode=\"yyyy\\-mm\\-dd hh:mm:ss\"/>"
    + "</numFmts>"

  const Trailer: string :=
    "<cellStyles count=\"1\"><cellStyle name=\"Normal\" xfId=\"0\" builtinId=\"0\"/></cellStyles>"
    + "<dxfs count=\"0\"/>"
    + "<tableStyles count=\"0\" defaultTableStyle=\"TableStyleMedium9\" defaultPivotStyle=\"PivotStyleLight16\"/>"
    + "</styleSheet>"

  /**
   * The template of `to_xml` with its layout whitespace left out (every run of it lies
   * between a `>` and a `<`, where stripping removes it): the tables in id order, and the
   * first xf again as the one cell style xf.
   */
  function StylesheetBody(ss: Stylesheet): string
    requires |ss.xfs| > 0
  {
    Join([
      "<styleSheet xmlns=\"http://schemas.openxmlformats.org/spreadsheetml/2006/main\">",
      NumFmts,
      Section("fonts", FontTexts(ss.fonts)),
      Section("fills", FillTexts(ss.fills)),
      Section("borders", BorderTexts(ss.borders)),
      Section("cellStyleXfs", [XfXml(ss.xfs[0])]),
      Section("cellXfs", XfTexts(ss.xfs)),
      Trailer])
  }

  /** `to_xml`: the declaration, then the stripped template. With no xf at all, `nil.to_xml` fails. */
  function StylesheetXml(ss: Stylesheet): (r: Result<string>)
    ensures r.Err? <==> |ss.xfs| == 0
    ensures r.Err? ==> r.error == MissingMethod("to_xml")
  {
    if |ss.xfs| == 0 then Err(MissingMethod("to_xml")) else Ok(Xml.Header + Xml.Strip(StylesheetBody(ss)))
  }

  /**
   * styles.xml differs from the header plus the template only in whitespace, and keeps no
   * whitespace next to a tag.
   */
  lemma StylesheetXmlText(ss: Stylesheet)
    requires |ss.xfs| > 0
    ensures StylesheetXml(ss).Ok?
    ensures Xml.NonSpace(StylesheetXml(ss).value) == Xml.NonSpace(Xml.Header) + Xml.NonSpace(StylesheetBody(ss))
    ensures Xml.Tidy(StylesheetXml(ss).value[|Xml.Header|..])
  {
    var body := StylesheetBody(ss);
    Xml.StripKeepsText(body);
    Xml.StripTidy(body);
    Xml.NonSpaceConcat(Xml.Header, Xml.Strip(body));
    assert StylesheetXml(ss).value[|Xml.Header|..] == Xml.Strip(body);
  }

  /** When no font or fill value puts whitespace next to a tag, styles.xml is the template verbatim. */
  lemma StylesheetXmlVerbatim(ss: Stylesheet)
    requires |ss.xfs| > 0 && Xml.Tidy(StylesheetBody(ss))
    ensures StylesheetXml(ss) == Ok(Xml.Header + StylesheetBody(ss))
  {
    Xml.StripIdentity(StylesheetBody(ss));
  }

  /** A constructed stylesheet always has styles.xml: its first xf is the default style. */
  lemma ValidHasXml(ss: Stylesheet)
    requires Valid(ss)
    ensures StylesheetXml(ss).Ok?
  {
  }
}
