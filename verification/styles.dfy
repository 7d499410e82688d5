/**
 * The style value types of Xlsxtream::Styles: Font, Fill, Border and Xf. Each is an
 * immutable record whose equality (and hash) is over its state, so the stylesheet's
 * tables may intern them; each renders itself as one element of styles.xml.
 *
 * Font and Fill take keyword arguments. A Hash passed where the keywords go is split
 * into them, so a key outside the accepted ones is an ArgumentError before the body runs.
 */
module Styles {
  import opened Wrappers
  import opened Text
  import opened Cells

  /** An optional keyword: its value when given (nil included), else the default. */
  function Keyword(o: Options, k: string, default: Scalar): (v: Scalar)
    ensures k !in o ==> v == default
  {
    if k in o then o[k] else default
  }

  // ---- Font ----

  /** FAMILY_IDS: each name's id is its position. */
  const FamilyNames: seq<string> := ["", "roman", "swiss", "modern", "script", "decorative"]

  /** The id FAMILY_IDS gives a lower-case name, if any. */
  function FamilyIndex(name: string): (r: Option<nat>)
    ensures r.Some? ==> r.value < |FamilyNames| && FamilyNames[r.value] == name
    ensures r.None? ==> name !in FamilyNames
  {
    if name == "" then Some(0)
    else if name == "roman" then Some(1)
    else if name == "swiss" then Some(2)
    else if name == "modern" then Some(3)
    else if name == "script" then Some(4)
    else if name == "decorative" then Some(5)
    else None
  }

  /**
   * `resolve_family_id`: the value's text, down-cased, looked up in FAMILY_IDS. Only
   * ASCII letters are folded: no other character folds into the letters of these names.
   */
  function ResolveFamily(v: Scalar): (r: Result<nat>)
    ensures r.Ok? ==> r.value < |FamilyNames| && FamilyNames[r.value] == AsciiDowncase(ToS(v))
    ensures r.Err? ==> AsciiDowncase(ToS(v)) !in FamilyNames && r.error == InvalidFontFamily(ToS(v))
  {
    match FamilyIndex(AsciiDowncase(ToS(v)))
    case Some(id) => Ok(id)
    case None => Err(InvalidFontFamily(ToS(v)))
  }

  lemma DowncaseLower(s: string)
    requires forall i | 0 <= i < |s| :: !('A' <= s[i] <= 'Z')
    ensures AsciiDowncase(s) == s
  {
  }

  /** Every family name, as a String or as a Symbol, resolves to its own id. */
  lemma FamilyRoundTrip(id: nat)
    requires id < |FamilyNames|
    ensures ResolveFamily(Str(FamilyNames[id])) == Ok(id)
    ensures ResolveFamily(Sym(FamilyNames[id])) == Ok(id)
  {
    var n := FamilyNames[id];
    DowncaseLower(n);
    assert FamilyIndex(n).Some?;
  }

  lemma DowncaseTwice(s: string)
    ensures AsciiDowncase(AsciiDowncase(s)) == AsciiDowncase(s)
  {
  }

  /** The lookup ignores letter case: a text resolves as its down-cased form does. */
  lemma FamilyIgnoresCase(s: string)
    ensures ResolveFamily(Str(s)).Ok? == ResolveFamily(Str(AsciiDowncase(s))).Ok?
    ensures ResolveFamily(Str(s)).Ok? ==> ResolveFamily(Str(s)) == ResolveFamily(Str(AsciiDowncase(s)))
  {
    DowncaseTwice(s);
  }

  /** nil and '' are family 0; 'ROMAN' is family 1, as :roman is. */
  lemma FamilyExamples(upper: string)
    requires upper == "ROMAN"
    ensures ResolveFamily(Nil) == Ok(0) && ResolveFamily(Str("")) == Ok(0)
    ensures ResolveFamily(Str(upper)) == Ok(1)
    ensures ResolveFamily(Sym("roman")) == Ok(1)
  {
    FamilyRoundTrip(1);
    assert AsciiDowncase(upper) == "roman";
  }

  const SupportedUnderlines: seq<string> := ["single", "singleAccounting", "double", "doubleAccounting"]

  /** `resolve_underline`: a supported kind (a String) is kept, true means 'single', anything else none. */
  function ResolveUnderline(v: Scalar): (r: Option<string>)
    ensures r.Some? ==> r.value in SupportedUnderlines
    ensures v.Str? && v.s in SupportedUnderlines ==> r == Some(v.s)
    ensures v == Bool(true) ==> r == Some("single")
    ensures r.Some? ==> v == Bool(true) || v == Str(r.value)
  {
    if v.Str? && v.s in SupportedUnderlines then Some(v.s)
    else if v == Bool(true) then Some("single")
    else None
  }

  /** Resolving is idempotent: a resolved kind, given again, resolves to itself. */
  lemma UnderlineIdempotent(v: Scalar)
    requires ResolveUnderline(v).Some?
    ensures ResolveUnderline(Str(ResolveUnderline(v).value)) == ResolveUnderline(v)
  {
  }

  /** The Font's state: the eight values `==` and `hash` compare, the family as its resolved id. */
  datatype Font = Font(
    bold: Scalar, italic: Scalar, strike: Scalar, underline: Option<string>,
    color: Scalar, size: Scalar, name: Scalar, familyId: nat)

  const FontKeywords: set<string> := {"bold", "italic", "strike", "underline", "color", "size", "name", "family"}

  /** `Font.new(**options)`. */
  function NewFont(o: Options): (r: Result<Font>)
    ensures !(o.Keys <= FontKeywords) ==> r == Err(UnknownKeywords(o.Keys - FontKeywords))
    ensures o.Keys <= FontKeywords ==> (r.Ok? <==> ResolveFamily(Keyword(o, "family", Str("Swiss"))).Ok?)
    ensures r.Ok? ==> r.value.familyId < |FamilyNames|
    ensures r.Ok? ==> r.value.size == Keyword(o, "size", Int(12)) && r.value.name == Keyword(o, "name", Str("Calibri"))
    ensures r.Ok? ==> r.value.bold == Keyword(o, "bold", Nil) && r.value.italic == Keyword(o, "italic", Nil)
    ensures r.Ok? ==> r.value.strike == Keyword(o, "strike", Nil) && r.value.color == Keyword(o, "color", Nil)
    ensures r.Ok? ==> r.value.underline == ResolveUnderline(Keyword(o, "underline", Nil))
  {
    if !(o.Keys <= FontKeywords) then Err(UnknownKeywords(o.Keys - FontKeywords))
    else
      var family :- ResolveFamily(Keyword(o, "family", Str("Swiss")));
      Ok(Font(
        Keyword(o, "bold", Nil), Keyword(o, "italic", Nil), Keyword(o, "strike", Nil),
        ResolveUnderline(Keyword(o, "underline", Nil)), Keyword(o, "color", Nil),
        Keyword(o, "size", Int(12)), Keyword(o, "name", Str("Calibri")), family))
  }

  /** The font of no options: size 12, Calibri, family Swiss (id 2), nothing else set. */
  const DefaultFont: Font := Font(Nil, Nil, Nil, None, Nil, Int(12), Str("Calibri"), 2)

  lemma NewFontDefaults(o: Options)
    requires o == map[]
    ensures NewFont(o) == Ok(DefaultFont)
  {
    assert AsciiDowncase("Swiss") == "swiss";
  }

  /** One child element of `<font>`. */
  datatype FontTag = Sz(size: string) | Name(name: string) | Family(id: nat) | B | I | U(kind: string) | Strike | Color(rgb: string)

  /** A tag's place in the order `tags` writes them. */
  function Rank(t: FontTag): nat
  {
    match t
    case Sz(_) => 0
    case Name(_) => 1
    case Family(_) => 2
    case B => 3
    case I => 4
    case U(_) => 5
    case Strike => 6
    case Color(_) => 7
  }

  function TagXml(t: FontTag): string
  {
    match t
    case Sz(v) => "<sz val=\"" + v + "\"/>"
    case Name(v) => "<name val=\"" + v + "\"/>"
    case Family(id) => "<family val=\"" + NatToString(id) + "\"/>"
    case B => "<b val=\"true\"/>"
    case I => "<i val=\"true\"/>"
    case U(k) => "<u val=\"" + k + "\"/>"
    case Strike => "<strike val=\"true\"/>"
    case Color(c) => "<color rgb=\"" + c + "\"/>"
  }

  function Optional(present: bool, t: FontTag): seq<FontTag>
  {
    if present then [t] else []
  }

  /** `tags`: size, name and family always, then each set attribute's tag. */
  function FontTags(f: Font): (r: seq<FontTag>)
  {
    [Sz(ToS(f.size)), Name(ToS(f.name)), Family(f.familyId)]
      + Optional(Truthy(f.bold), B) + Optional(Truthy(f.italic), I)
      + Optional(f.underline.Some?, U(if f.underline.Some? then f.underline.value else ""))
      + Optional(Truthy(f.strike), Strike) + Optional(Truthy(f.color), Color(ToS(f.color)))
  }

  /** Tags of strictly rising rank: each kind at most once, in the fixed order. */
  predicate Ordered(ts: seq<FontTag>)
  {
    forall i, j | 0 <= i < j < |ts| :: Rank(ts[i]) < Rank(ts[j])
  }

  /** The rank of the last tag, -1 for no tags. */
  function LastRank(ts: seq<FontTag>): int
  {
    if |ts| == 0 then -1 else Rank(ts[|ts| - 1])
  }

  lemma OrderedAppend(ts: seq<FontTag>, present: bool, t: FontTag)
    requires Ordered(ts) && LastRank(ts) < Rank(t)
    ensures Ordered(ts + Optional(present, t)) && LastRank(ts + Optional(present, t)) <= Rank(t)
  {
    if present {
      var r := ts + [t];
      forall i, j | 0 <= i < j < |r| ensures Rank(r[i]) < Rank(r[j]) {
        if j == |ts| && i < |ts| - 1 {
          assert Rank(ts[i]) < Rank(ts[|ts| - 1]);
        }
      }
    } else {
      assert ts + Optional(present, t) == ts;
    }
  }

  lemma InOptional(ts: seq<FontTag>, present: bool, t: FontTag, x: FontTag)
    ensures x in ts + Optional(present, t) <==> x in ts || (present && x == t)
  {
  }

  /** sz, name and family always open the list. */
  lemma FontTagsHead(f: Font)
    ensures var r := FontTags(f);
      3 <= |r| <= 8 && r[0] == Sz(ToS(f.size)) && r[1] == Name(ToS(f.name)) && r[2] == Family(f.familyId)
  {
  }

  /** The tags come in the fixed order sz, name, family, b, i, u, strike, color, each kind at most once. */
  lemma FontTagsOrdered(f: Font)
    ensures Ordered(FontTags(f))
  {
    var base := [Sz(ToS(f.size)), Name(ToS(f.name)), Family(f.familyId)];
    var t1 := base + Optional(Truthy(f.bold), B);
    var t2 := t1 + Optional(Truthy(f.italic), I);
    var u := U(if f.underline.Some? then f.underline.value else "");
    var t3 := t2 + Optional(f.underline.Some?, u);
    var t4 := t3 + Optional(Truthy(f.strike), Strike);
    var t5 := t4 + Optional(Truthy(f.color), Color(ToS(f.color)));
    assert t5 == FontTags(f);
    assert Ordered(t1) && LastRank(t1) <= 3 by {
      assert Ordered(base) && LastRank(base) == 2;
      OrderedAppend(base, Truthy(f.bold), B);
    }
    assert Ordered(t2) && LastRank(t2) <= 4 by {
      OrderedAppend(t1, Truthy(f.italic), I);
    }
    assert Ordered(t3) && LastRank(t3) <= 5 by {
      OrderedAppend(t2, f.underline.Some?, u);
    }
    assert Ordered(t4) && LastRank(t4) <= 6 by {
      OrderedAppend(t3, Truthy(f.strike), Strike);
    }
    OrderedAppend(t4, Truthy(f.color), Color(ToS(f.color)));
  }

  /** Each optional tag is written exactly when its attribute is set, with the attribute's value. */
  lemma FontTagsPresence(f: Font, x: FontTag)
    ensures x == B ==> (x in FontTags(f) <==> Truthy(f.bold))
    ensures x == I ==> (x in FontTags(f) <==> Truthy(f.italic))
    ensures x == Strike ==> (x in FontTags(f) <==> Truthy(f.strike))
    ensures x.U? ==> (x in FontTags(f) <==> f.underline == Some(x.kind))
    ensures x.Color? ==> (x in FontTags(f) <==> Truthy(f.color) && x.rgb == ToS(f.color))
  {
    var base := [Sz(ToS(f.size)), Name(ToS(f.name)), Family(f.familyId)];
    var t1 := base + Optional(Truthy(f.bold), B);
    var t2 := t1 + Optional(Truthy(f.italic), I);
    var u := U(if f.underline.Some? then f.underline.value else "");
    var t3 := t2 + Optional(f.underline.Some?, u);
    var t4 := t3 + Optional(Truthy(f.strike), Strike);
    var t5 := t4 + Optional(Truthy(f.color), Color(ToS(f.color)));
    assert t5 == FontTags(f);
    InOptional(base, Truthy(f.bold), B, x);
    InOptional(t1, Truthy(f.italic), I, x);
    InOptional(t2, f.underline.Some?, u, x);
    InOptional(t3, Truthy(f.strike), Strike, x);
    InOptional(t4, Truthy(f.color), Color(ToS(f.color)), x);
    if x.B? || x.I? || x.Strike? || x.U? || x.Color? {
      assert x !in base;
    }
  }

  function TagTexts(ts: seq<FontTag>): (r: seq<string>)
    ensures |r| == |ts|
  {
    seq(|ts|, i requires 0 <= i < |ts| => TagXml(ts[i]))
  }

  /** Font#to_xml. */
  function FontXml(f: Font): string
  {
    "<font>" + Join(TagTexts(FontTags(f))) + "</font>"
  }

  lemma DefaultFontTexts(f: Font)
    requires f == DefaultFont
    ensures TagTexts(FontTags(f)) == ["<sz val=\"12\"/>", "<name val=\"Calibri\"/>", "<family val=\"2\"/>"]
  {
    assert ToS(Int(12)) == "12";
    var ts := FontTags(f);
    assert ts == [Sz("12"), Name("Calibri"), Family(2)];
    var texts := TagTexts(ts);
    assert texts[0] == "<sz val=\"12\"/>";
    assert texts[1] == "<name val=\"Calibri\"/>";
    assert NatToString(2) == "2";
    assert texts[2] == "<family val=\"2\"/>";
  }

  /** The default font is `<font><sz val="12"/><name val="Calibri"/><family val="2"/></font>`. */
  lemma DefaultFontXml()
    ensures FontXml(DefaultFont) == "<font>" + "<sz val=\"12\"/>" + "<name val=\"Calibri\"/>" + "<family val=\"2\"/>" + "</font>"
  {
    DefaultFontTexts(DefaultFont);
    JoinThree("<sz val=\"12\"/>", "<name val=\"Calibri\"/>", "<family val=\"2\"/>");
  }

  // ---- Fill ----

  /** The Fill's state, (pattern, color). */
  datatype Fill = Fill(pattern: Scalar, color: Scalar)

  const FillKeywords: set<string> := {"pattern", "color"}

  /** `Fill.new(**options)`: pattern defaults to solid with a color, none without; it is not checked. */
  function NewFill(o: Options): (r: Result<Fill>)
    ensures r.Err? <==> !(o.Keys <= FillKeywords)
    ensures r.Err? ==> r.error == UnknownKeywords(o.Keys - FillKeywords)
    ensures r.Ok? ==> r.value.color == Keyword(o, "color", Nil) && Truthy(r.value.pattern)
    ensures r.Ok? && Truthy(Keyword(o, "pattern", Nil)) ==> r.value.pattern == o["pattern"]
    ensures r.Ok? && !Truthy(Keyword(o, "pattern", Nil)) ==>
      r.value.pattern == Str(if Truthy(Keyword(o, "color", Nil)) then "solid" else "none")
  {
    if !(o.Keys <= FillKeywords) then Err(UnknownKeywords(o.Keys - FillKeywords))
    else
      var pattern := Keyword(o, "pattern", Nil);
      var color := Keyword(o, "color", Nil);
      Ok(Fill(if Truthy(pattern) then pattern else if Truthy(color) then Str("solid") else Str("none"), color))
  }

  /** Fill#to_xml: the pattern and color are written only when there is a color. */
  function FillXml(f: Fill): (r: string)
  {
    if Truthy(f.color)
    then "<fill><patternFill patternType=\"" + ToS(f.pattern) + "\"><fgColor rgb=\"" + ToS(f.color) + "\"/></patternFill></fill>"
    else "<fill></fill>"
  }

  /**
   * Without a color every fill prints as `<fill></fill>`, so two fills the table keeps
   * apart (patterns differ) can print alike.
   */
  lemma FillsWithoutColor(f: Fill, g: Fill)
    requires !Truthy(f.color) && !Truthy(g.color)
    ensures FillXml(f) == "<fill></fill>" && FillXml(f) == FillXml(g)
  {
  }

  /** With a color the pattern follows the color: `Fill.new(color: c)` is a solid fill of c. */
  lemma ColorOnlyFill(c: string, o: Options)
    requires o == map["color" := Str(c)]
    ensures NewFill(o) == Ok(Fill(Str("solid"), Str(c)))
    ensures FillXml(NewFill(o).value)
      == "<fill><patternFill patternType=\"solid\"><fgColor rgb=\"" + c + "\"/></patternFill></fill>"
  {
    assert o.Keys == {"color"};
    assert "pattern" !in o;
    var f := Fill(Str("solid"), Str(c));
    assert NewFill(o) == Ok(f);
    assert ToS(f.pattern) == "solid" && ToS(f.color) == c;
    SolidJoined();
  }

  lemma SolidJoined()
    ensures "<fill><patternFill patternType=\"" + "solid" + "\"><fgColor rgb=\""
         == "<fill><patternFill patternType=\"solid\"><fgColor rgb=\""
  {
  }

  // ---- Border ----

  /** A Border has no state: every two Borders are equal. */
  datatype Border = Border

  function BorderXml(b: Border): string
  {
    "<border/>"
  }

  // ---- Xf ----

  /** Xf attributes: Symbol keys with Integer values, in insertion order. */
  type Attrs = seq<(string, int)>

  /** SUPPORTED_FIELDS: the required fields and the optional ones. */
  const XfFields: set<string> := {"numFmtId", "fontId", "fillId", "borderId", "xfId", "applyFill", "applyNumberFormat"}

  /** A Hash has each key once. */
  predicate UniqueKeys(a: Attrs)
  {
    forall i, j | 0 <= i < j < |a| :: a[i].0 != a[j].0
  }

  datatype Xf = Xf(attrs: Attrs)

  /** `attrs.select`: the supported pairs, order kept. */
  function Supported(a: Attrs): (r: Attrs)
    ensures |r| <= |a|
    decreases |a|
  {
    if |a| == 0 then []
    else Supported(a[..|a| - 1]) + (if a[|a| - 1].0 in XfFields then [a[|a| - 1]] else [])
  }

  lemma {:induction false} SupportedPairs(a: Attrs)
    ensures forall p :: p in Supported(a) <==> p in a && p.0 in XfFields
    decreases |a|
  {
    if |a| > 0 {
      SupportedPairs(a[..|a| - 1]);
      assert a == a[..|a| - 1] + [a[|a| - 1]];
    }
  }

  /** Dropping pairs keeps the keys unique and the order of the rest. */
  lemma {:induction false} SupportedUnique(a: Attrs)
    requires UniqueKeys(a)
    ensures UniqueKeys(Supported(a))
    decreases |a|
  {
    if |a| > 0 {
      var init := a[..|a| - 1];
      SupportedUnique(init);
      SupportedPairs(init);
      var last := a[|a| - 1];
      var r := Supported(a);
      if last.0 in XfFields {
        forall i, j | 0 <= i < j < |r| ensures r[i].0 != r[j].0 {
          if j == |r| - 1 {
            assert r[i] in Supported(init);
            assert r[i] in init;
            var k :| 0 <= k < |init| && init[k] == r[i];
            assert a[k] == r[i];
          } else {
            assert r[i] == Supported(init)[i] && r[j] == Supported(init)[j];
          }
        }
      }
    }
  }

  /** `Xf.new(attrs)`: only the supported keys are kept. */
  function NewXf(a: Attrs): (x: Xf)
    ensures forall p :: p in x.attrs <==> p in a && p.0 in XfFields
  {
    SupportedPairs(a);
    Xf(Supported(a))
  }

  /** A Hash's contents as a map: what Hash#== and Hash#hash see, whatever the insertion order. */
  function AttrMap(a: Attrs): (m: map<string, int>)
    decreases |a|
  {
    if |a| == 0 then map[] else AttrMap(a[..|a| - 1])[a[|a| - 1].0 := a[|a| - 1].1]
  }

  lemma AttrMapSnoc(a: Attrs, p: (string, int))
    ensures AttrMap(a + [p]) == AttrMap(a)[p.0 := p.1]
    ensures Supported(a + [p]) == Supported(a) + (if p.0 in XfFields then [p] else [])
  {
    assert (a + [p])[..|a|] == a;
  }

  /** With unique keys, the map holds exactly the pairs. */
  lemma {:induction false} AttrMapPairs(a: Attrs)
    requires UniqueKeys(a)
    ensures forall k | k in AttrMap(a) :: (k, AttrMap(a)[k]) in a
    ensures forall p | p in a :: p.0 in AttrMap(a) && AttrMap(a)[p.0] == p.1
    decreases |a|
  {
    if |a| > 0 {
      var init := a[..|a| - 1];
      var last := a[|a| - 1];
      AttrMapPairs(init);
      assert a == init + [last];
      forall k | k in AttrMap(a) ensures (k, AttrMap(a)[k]) in a {
        if k != last.0 {
          assert (k, AttrMap(init)[k]) in init;
        }
      }
      forall p | p in a ensures p.0 in AttrMap(a) && AttrMap(a)[p.0] == p.1 {
        var i :| 0 <= i < |a| && a[i] == p;
        if i < |a| - 1 {
          assert p in init;
          assert p.0 != last.0;
        }
      }
    }
  }

  /** Xf#state, as equality and hash see it. */
  function XfKey(x: Xf): map<string, int>
  {
    AttrMap(x.attrs)
  }

  /** Equality is independent of key order: the same pairs in any order make equal Xfs. */
  lemma XfOrderFree(a: Attrs, b: Attrs)
    requires UniqueKeys(a) && UniqueKeys(b)
    requires forall p :: p in a <==> p in b
    ensures XfKey(NewXf(a)) == XfKey(NewXf(b))
  {
    SupportedUnique(a);
    SupportedUnique(b);
    var x := NewXf(a).attrs;
    var y := NewXf(b).attrs;
    AttrMapPairs(x);
    AttrMapPairs(y);
    assert forall k :: k in AttrMap(x) <==> k in AttrMap(y) by {
      forall k ensures k in AttrMap(x) <==> k in AttrMap(y) {
        if k in AttrMap(x) {
          var p := (k, AttrMap(x)[k]);
          assert p in x;
          assert p in a && p.0 in XfFields;
          assert p in y;
          assert k in AttrMap(y);
        }
        if k in AttrMap(y) {
          var p := (k, AttrMap(y)[k]);
          assert p in y;
          assert p in b && p.0 in XfFields;
          assert p in x;
          assert k in AttrMap(x);
        }
      }
    }
  }

  function AttrText(p: (string, int)): string
  {
    p.0 + "=\"" + IntToString(p.1) + "\""
  }

  function AttrTexts(a: Attrs): (r: seq<string>)
    ensures |r| == |a|
  {
    seq(|a|, i requires 0 <= i < |a| => AttrText(a[i]))
  }

  /** Xf#to_xml: xfId="0", then every pair in insertion order. */
  function XfXml(x: Xf): string
  {
    "<xf xfId=\"0\" " + JoinWith(" ", AttrTexts(x.attrs)) + "/>"
  }
}
