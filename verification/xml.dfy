/**
 * XML text primitives: the declaration line, entity escaping for attributes and text,
 * ST_Xstring escaping (section 22.9.2.19 of ECMA-376 Part 1), replacement of characters
 * outside the Char production of section 2.2 of XML 1.0, and whitespace stripping
 * between tags.
 */
module Xml {
  import opened Text

  /** The XML declaration every package part starts with. */
  const Declaration: string := "<?xml version=\"1.0\" encoding=\"UTF-8\" standalone=\"yes\"?>"

  /** XML.header: the declaration as one line terminated by CR LF. */
  const Header: string := Declaration + "\r\n"

  // ---------------------------------------------------------------------------
  // Entity escaping

  /** XML_ESCAPES: the entity for each of `& " < >`; every other character is copied. */
  function AttrPiece(c: char): string
  {
    if c == '&' then "&amp;"
    else if c == '"' then "&quot;"
    else if c == '<' then "&lt;"
    else if c == '>' then "&gt;"
    else [c]
  }

  /** The same table restricted to UNSAFE_VALUE_CHARS `& < >`: a double quote is copied. */
  function ValuePiece(c: char): string
  {
    if c == '"' then [c] else AttrPiece(c)
  }

  /** One of the four entities XML_ESCAPES produces starts at index i. */
  predicate EntityAt(r: string, i: nat)
    requires i <= |r|
  {
    "&amp;" <= r[i..] || "&quot;" <= r[i..] || "&lt;" <= r[i..] || "&gt;" <= r[i..]
  }

  /** Every ampersand of r starts an entity. */
  predicate AmpersandsAreEntities(r: string)
  {
    forall i | 0 <= i < |r| && r[i] == '&' :: EntityAt(r, i)
  }

  lemma AmpersandsConcat(p: string, q: string)
    requires AmpersandsAreEntities(p) && AmpersandsAreEntities(q)
    ensures AmpersandsAreEntities(p + q)
  {
    var r := p + q;
    forall i | 0 <= i < |r| && r[i] == '&'
      ensures EntityAt(r, i)
    {
      if i < |p| {
        assert EntityAt(p, i);
        assert p[i..] <= r[i..];
      } else {
        assert r[i..] == q[i - |p|..];
        assert EntityAt(q, i - |p|);
      }
    }
  }

  lemma PieceShape(c: char)
    ensures AmpersandsAreEntities(AttrPiece(c)) && AmpersandsAreEntities(ValuePiece(c))
    ensures '"' !in AttrPiece(c) && '<' !in AttrPiece(c) && '>' !in AttrPiece(c)
    ensures '<' !in ValuePiece(c) && '>' !in ValuePiece(c)
    ensures c in "&<>" ==> ValuePiece(c)[0] == '&'
    ensures c !in "&<>" ==> ValuePiece(c) == [c]
  {
    if c == '&' || c == '"' || c == '<' || c == '>' {
      EntityShape(AttrPiece(c));
    }
  }

  /** Each entity of XML_ESCAPES starts with its only ampersand and holds no `" < >`. */
  lemma EntityShape(e: string)
    requires e == "&amp;" || e == "&quot;" || e == "&lt;" || e == "&gt;"
    ensures AmpersandsAreEntities(e) && '"' !in e && '<' !in e && '>' !in e
  {
    assert e[0..] == e;
  }

  /** XML.escape_attr: UNSAFE_ATTR_CHARS replaced through XML_ESCAPES. */
  function EscapeAttr(s: string): string
    decreases |s|
  {
    if |s| == 0 then "" else AttrPiece(s[0]) + EscapeAttr(s[1..])
  }

  /** An escaped attribute value holds no raw `" < >`, and each of its ampersands starts an entity. */
  lemma {:induction false} EscapeAttrSafe(s: string)
    ensures var r := EscapeAttr(s); '"' !in r && '<' !in r && '>' !in r && AmpersandsAreEntities(r)
    decreases |s|
  {
    if |s| > 0 {
      EscapeAttrSafe(s[1..]);
      PieceShape(s[0]);
      AmpersandsConcat(AttrPiece(s[0]), EscapeAttr(s[1..]));
    }
  }

  /** The entity-escaping step of XML.escape_value: UNSAFE_VALUE_CHARS through XML_ESCAPES. */
  function EscapeEntities(s: string): string
    decreases |s|
  {
    if |s| == 0 then "" else ValuePiece(s[0]) + EscapeEntities(s[1..])
  }

  /** Entity-escaped text holds no raw `< >`, and each of its ampersands starts an entity. */
  lemma {:induction false} EscapeEntitiesSafe(s: string)
    ensures var r := EscapeEntities(s); '<' !in r && '>' !in r && AmpersandsAreEntities(r)
    decreases |s|
  {
    if |s| > 0 {
      EscapeEntitiesSafe(s[1..]);
      PieceShape(s[0]);
      AmpersandsConcat(ValuePiece(s[0]), EscapeEntities(s[1..]));
    }
  }

  /** How an XML reader resolves the four entities above; anything else is read as itself. */
  function Unescape(r: string): string
    decreases |r|
  {
    if |r| == 0 then ""
    else if r[0] != '&' then [r[0]] + Unescape(r[1..])
    else if "&amp;" <= r then "&" + Unescape(r[5..])
    else if "&quot;" <= r then "\"" + Unescape(r[6..])
    else if "&lt;" <= r then "<" + Unescape(r[4..])
    else if "&gt;" <= r then ">" + Unescape(r[4..])
    else [r[0]] + Unescape(r[1..])
  }

  lemma UnescapePiece(p: string, c: char, rest: string)
    requires p == AttrPiece(c) || p == ValuePiece(c)
    ensures Unescape(p + rest) == [c] + Unescape(rest)
  {
    var r := p + rest;
    if c == '&' {
      assert r[5..] == rest;
    } else if c == '"' && p == "&quot;" {
      assert r[1] == 'q';
      assert r[6..] == rest;
    } else if c == '<' {
      assert r[1] == 'l';
      assert r[4..] == rest;
    } else if c == '>' {
      assert r[1] == 'g';
      assert r[4..] == rest;
    } else {
      assert p == [c];
      assert r[1..] == rest;
    }
  }

  /** Reading an escaped attribute gives back exactly the original text. */
  lemma {:induction false} EscapeAttrRoundTrip(s: string)
    ensures Unescape(EscapeAttr(s)) == s
    decreases |s|
  {
    if |s| > 0 {
      EscapeAttrRoundTrip(s[1..]);
      UnescapePiece(AttrPiece(s[0]), s[0], EscapeAttr(s[1..]));
      assert s == [s[0]] + s[1..];
    }
  }

  /** Reading entity-escaped text gives back exactly the original text, double quotes included. */
  lemma {:induction false} EscapeEntitiesRoundTrip(s: string)
    ensures Unescape(EscapeEntities(s)) == s
    decreases |s|
  {
    if |s| > 0 {
      EscapeEntitiesRoundTrip(s[1..]);
      UnescapePiece(ValuePiece(s[0]), s[0], EscapeEntities(s[1..]));
      assert s == [s[0]] + s[1..];
    }
  }

  /** Text without `& " < >` passes escape_attr unchanged. */
  lemma {:induction false} EscapeAttrPlain(s: string)
    requires forall i | 0 <= i < |s| :: s[i] !in "&\"<>"
    ensures EscapeAttr(s) == s
    decreases |s|
  {
    if |s| > 0 {
      assert s[0] !in "&\"<>";
      EscapeAttrPlain(s[1..]);
      assert s == [s[0]] + s[1..];
    }
  }

  /** Text without `& < >` passes the entity step of escape_value unchanged, double quotes included. */
  lemma {:induction false} EscapeEntitiesPlain(s: string)
    requires forall i | 0 <= i < |s| :: s[i] !in "&<>"
    ensures EscapeEntities(s) == s
    decreases |s|
  {
    if |s| > 0 {
      assert s[0] !in "&<>";
      EscapeEntitiesPlain(s[1..]);
      assert s == [s[0]] + s[1..];
    }
  }

  lemma {:induction false} EscapeAttrConcat(a: string, b: string)
    ensures EscapeAttr(a + b) == EscapeAttr(a) + EscapeAttr(b)
    decreases |a|
  {
    if |a| > 0 {
      var t := a[1..];
      assert (a + b)[0] == a[0] && (a + b)[1..] == t + b;
      EscapeAttrConcat(t, b);
      assert EscapeAttr(a + b) == AttrPiece(a[0]) + (EscapeAttr(t) + EscapeAttr(b));
      Regroup(AttrPiece(a[0]), EscapeAttr(t), EscapeAttr(b));
    } else {
      assert a + b == b;
    }
  }

  lemma {:induction false} EscapeEntitiesConcat(a: string, b: string)
    ensures EscapeEntities(a + b) == EscapeEntities(a) + EscapeEntities(b)
    decreases |a|
  {
    if |a| > 0 {
      var t := a[1..];
      assert (a + b)[0] == a[0] && (a + b)[1..] == t + b;
      EscapeEntitiesConcat(t, b);
      assert EscapeEntities(a + b) == ValuePiece(a[0]) + (EscapeEntities(t) + EscapeEntities(b));
      Regroup(ValuePiece(a[0]), EscapeEntities(t), EscapeEntities(b));
    } else {
      assert a + b == b;
    }
  }

  lemma EscapeAttrChar(c: char)
    ensures EscapeAttr([c]) == AttrPiece(c) && EscapeEntities([c]) == ValuePiece(c)
  {
    assert [c][1..] == [];
  }

  // ---------------------------------------------------------------------------
  // ST_Xstring escaping and characters outside XML 1.0

  /** The Char production of section 2.2 of XML 1.0, for Unicode scalar values. */
  predicate IsXmlChar(c: char)
  {
    c == '\t' || c == '\n' || c == '\r' || (' ' <= c && c as int != 0xFFFE && c as int != 0xFFFF)
  }

  /** Whether s starts with `_x`, four hexadecimal digits of either case, and `_`. */
  predicate StartsWithXEscape(s: string)
  {
    |s| >= 7 && s[0] == '_' && s[1] == 'x'
    && IsHexDigit(s[2]) && IsHexDigit(s[3]) && IsHexDigit(s[4]) && IsHexDigit(s[5])
    && s[6] == '_'
  }

  /** The character an escape `_xHHHH_` stands for, when HHHH names a Unicode scalar value. */
  function XEscapeValue(s: string): (v: nat)
    requires StartsWithXEscape(s)
    ensures v < 0x10000
  {
    Hex4Value(s[2..6])
  }

  predicate IsScalar(v: nat)
  {
    v < 0xD800 || (0xE000 <= v < 0x11_0000)
  }

  /**
   * The underscore step of XML.escape_value as written: every match of `_x` + four hex
   * digits + `_`, scanning left to right without overlap, gets its underscore replaced by
   * the escape `_x005f_` of `_` itself.
   */
  function EscapeUnderscores(s: string): string
    decreases |s|
  {
    if |s| == 0 then ""
    else if StartsWithXEscape(s) then "_x005f_" + s[1..7] + EscapeUnderscores(s[7..])
    else [s[0]] + EscapeUnderscores(s[1..])
  }

  /** `'_x%04X_' % c.ord`: the ST_Xstring escape of a character outside XML 1.0. */
  function CharEscape(c: char): (r: string)
    requires !IsXmlChar(c)
    ensures |r| == 7 && StartsWithXEscape(r) && XEscapeValue(r) == c as int
  {
    var h := Hex4(c as int);
    var r := "_x" + h + "_";
    assert r[2..6] == h;
    r
  }

  /** One character of the last step of XML.escape_value. */
  function InvalidPiece(c: char): string
  {
    if IsXmlChar(c) then [c] else CharEscape(c)
  }

  /** The last step of XML.escape_value: every character outside XML 1.0 becomes its escape. */
  function EscapeInvalid(s: string): string
    decreases |s|
  {
    if |s| == 0 then "" else InvalidPiece(s[0]) + EscapeInvalid(s[1..])
  }

  /** The characters a piece of escaped text may consist of besides those it copies. */
  predicate IsEscapeChar(c: char)
  {
    c == '_' || c == 'x' || IsHexDigit(c)
  }

  lemma {:induction false} EscapeUnderscoresChars(s: string)
    ensures forall c | c in EscapeUnderscores(s) :: c in s || IsEscapeChar(c)
    decreases |s|
  {
    if |s| > 0 {
      if StartsWithXEscape(s) {
        EscapeUnderscoresChars(s[7..]);
        var r := EscapeUnderscores(s);
        forall c | c in r ensures c in s || IsEscapeChar(c) {
          if c in "_x005f_" {
          } else if c in s[1..7] {
            assert c in s;
          } else {
            assert c in EscapeUnderscores(s[7..]);
            assert forall d | d in s[7..] :: d in s;
          }
        }
      } else {
        EscapeUnderscoresChars(s[1..]);
        assert forall d | d in s[1..] :: d in s;
      }
    }
  }

  lemma {:induction false} EscapeInvalidChars(s: string)
    ensures forall c | c in EscapeInvalid(s) :: IsXmlChar(c) && (c in s || IsEscapeChar(c))
    decreases |s|
  {
    if |s| > 0 {
      var t := s[1..];
      EscapeInvalidChars(t);
      InvalidPieceChars(s[0]);
      assert s == [s[0]] + t;
      assert EscapeInvalid(s) == InvalidPiece(s[0]) + EscapeInvalid(t);
    }
  }

  lemma InvalidPieceChars(ch: char)
    ensures forall c | c in InvalidPiece(ch) :: IsXmlChar(c) && (c == ch || IsEscapeChar(c))
  {
    if !IsXmlChar(ch) {
      var h := Hex4(ch as int);
      assert InvalidPiece(ch) == "_x" + h + "_";
      assert forall c | c in InvalidPiece(ch) :: c == '_' || c == 'x' || c in h;
    }
  }

  /**
   * XML.escape_value as written: entities first, then the underscore step, then the
   * escapes of characters outside XML 1.0.
   */
  function EscapeValue(s: string): string
  {
    EscapeInvalid(EscapeUnderscores(EscapeEntities(s)))
  }

  /** Escaped text is XML 1.0 character data: only legal characters and no raw `<` or `>`. */
  lemma EscapeValueSafe(s: string)
    ensures forall c | c in EscapeValue(s) :: IsXmlChar(c) && c != '<' && c != '>'
  {
    EscapeEntitiesSafe(s);
    EscapeUnderscoresChars(EscapeEntities(s));
    EscapeInvalidChars(EscapeUnderscores(EscapeEntities(s)));
  }

  /**
   * How a reader of ST_Xstring text turns escapes back into characters: scanning left to
   * right, `_xHHHH_` naming a scalar value is read as that character.
   */
  function DecodeXstring(s: string): string
    decreases |s|
  {
    if |s| == 0 then ""
    else if StartsWithXEscape(s) && IsScalar(XEscapeValue(s)) then [XEscapeValue(s) as char] + DecodeXstring(s[7..])
    else [s[0]] + DecodeXstring(s[1..])
  }

  // ---------------------------------------------------------------------------
  // Reading escaped text back

  lemma {:induction false} UnescapeCopies(p: string, rest: string)
    requires '&' !in p
    ensures Unescape(p + rest) == p + Unescape(rest)
    decreases |p|
  {
    if |p| > 0 {
      var r := p + rest;
      assert r[0] == p[0] && p[0] != '&';
      assert r[1..] == p[1..] + rest;
      assert p == [p[0]] + p[1..];
      UnescapeCopies(p[1..], rest);
    } else {
      assert p + rest == rest;
    }
  }

  lemma {:induction false} EscapeInvalidConcat(a: string, b: string)
    ensures EscapeInvalid(a + b) == EscapeInvalid(a) + EscapeInvalid(b)
    decreases |a|
  {
    if |a| > 0 {
      var t := a[1..];
      assert (a + b)[0] == a[0] && (a + b)[1..] == t + b;
      EscapeInvalidConcat(t, b);
      assert EscapeInvalid(a + b) == InvalidPiece(a[0]) + (EscapeInvalid(t) + EscapeInvalid(b));
      Regroup(InvalidPiece(a[0]), EscapeInvalid(t), EscapeInvalid(b));
    } else {
      assert a + b == b;
    }
  }

  lemma {:induction false} EscapeInvalidCopies(s: string)
    requires forall i | 0 <= i < |s| :: IsXmlChar(s[i])
    ensures EscapeInvalid(s) == s
    decreases |s|
  {
    if |s| > 0 {
      EscapeInvalidCopies(s[1..]);
      assert s == [s[0]] + s[1..];
    }
  }

  /**
   * The underscore step as evidently intended: an underscore is escaped exactly when the
   * text finally written would show it as the start of an escape, that is when it is
   * followed by `x`, four hexadecimal digits, and either `_` or a character the last step
   * turns into an escape (which begins with `_`). Matches may overlap.
   */
  predicate UnderscoreNeedsEscape(s: string)
  {
    |s| >= 7 && s[0] == '_' && s[1] == 'x'
    && IsHexDigit(s[2]) && IsHexDigit(s[3]) && IsHexDigit(s[4]) && IsHexDigit(s[5])
    && (s[6] == '_' || !IsXmlChar(s[6]))
  }

  function EscapeUnderscoresFixed(s: string): string
    decreases |s|
  {
    if |s| == 0 then ""
    else (if UnderscoreNeedsEscape(s) then "_x005f_" else [s[0]]) + EscapeUnderscoresFixed(s[1..])
  }

  /** XML.escape_value with the corrected underscore step. */
  function EscapeValueFixed(s: string): string
  {
    EscapeInvalid(EscapeUnderscoresFixed(EscapeEntities(s)))
  }

  /** The last two steps of EscapeValueFixed. */
  function XstringOf(s: string): string
  {
    EscapeInvalid(EscapeUnderscoresFixed(s))
  }

  /** The first character a text's escape begins with. */
  function Lead(c: char): char
  {
    if c == '_' || !IsXmlChar(c) then '_' else c
  }

  function XstringPiece(s: string): string
    requires |s| > 0
  {
    if UnderscoreNeedsEscape(s) then "_x005f_" else InvalidPiece(s[0])
  }

  lemma XstringStep(s: string)
    requires |s| > 0
    ensures XstringOf(s) == XstringPiece(s) + XstringOf(s[1..])
    ensures |XstringPiece(s)| >= 1 && XstringPiece(s)[0] == Lead(s[0])
    ensures Lead(s[0]) != '_' ==> XstringPiece(s) == [s[0]]
  {
    var p := if UnderscoreNeedsEscape(s) then "_x005f_" else [s[0]];
    EscapeInvalidConcat(p, EscapeUnderscoresFixed(s[1..]));
    if UnderscoreNeedsEscape(s) {
      EscapeInvalidCopies("_x005f_");
    } else {
      assert [s[0]][1..] == [];
    }
  }

  lemma XstringOfEmpty()
    ensures XstringOf("") == ""
  {
  }

  /** A prefix of legal characters other than `_` is copied unchanged. */
  lemma {:induction false} XstringCopiesPrefix(s: string, k: nat)
    requires k <= |s|
    requires forall j | 0 <= j < k :: IsXmlChar(s[j]) && s[j] != '_'
    ensures XstringOf(s) == s[..k] + XstringOf(s[k..])
    decreases k
  {
    if k > 0 {
      var t := s[1..];
      XstringStep(s);
      XstringCopiesPrefix(t, k - 1);
      assert t[k - 1..] == s[k..];
      assert s[..k] == [s[0]] + t[..k - 1];
      Regroup([s[0]], t[..k - 1], XstringOf(s[k..]));
    }
  }

  /** Where the escaped text starts without `_`, it copies the original character for character. */
  lemma {:induction false} XstringLeading(s: string, k: nat)
    requires k < |XstringOf(s)|
    requires forall j | 0 <= j <= k :: XstringOf(s)[j] != '_'
    ensures k < |s|
    ensures forall j | 0 <= j <= k :: IsXmlChar(s[j]) && s[j] != '_' && s[j] == XstringOf(s)[j]
    decreases k
  {
    if |s| == 0 {
      XstringOfEmpty();
    } else {
      XstringStep(s);
      var o := XstringOf(s);
      assert o[0] == Lead(s[0]);
      assert o == [s[0]] + XstringOf(s[1..]);
      if k > 0 {
        forall j | 0 <= j <= k - 1 ensures XstringOf(s[1..])[j] != '_' {
          assert XstringOf(s[1..])[j] == o[j + 1];
        }
        XstringLeading(s[1..], k - 1);
        forall j | 0 <= j <= k ensures IsXmlChar(s[j]) && s[j] != '_' && s[j] == o[j] {
          if j > 0 {
            assert s[j] == s[1..][j - 1];
            assert o[j] == XstringOf(s[1..])[j - 1];
          }
        }
      }
    }
  }

  /** An underscore left unescaped never reads as the start of an escape. */
  lemma NoFalseEscape(s: string)
    requires |s| > 0 && s[0] == '_' && !UnderscoreNeedsEscape(s)
    ensures !StartsWithXEscape("_" + XstringOf(s[1..]))
  {
    var u := s[1..];
    var o := XstringOf(u);
    var w := "_" + o;
    if StartsWithXEscape(w) {
      assert forall j | 0 <= j <= 5 :: o[j] == w[j + 1];
      UnderscoreAtFive(u);
    }
  }

  /** An escaped text whose first `_` is its sixth character copies five legal characters, then escapes. */
  lemma UnderscoreAtFive(u: string)
    requires |XstringOf(u)| >= 6 && XstringOf(u)[5] == '_'
    requires forall j | 0 <= j <= 4 :: XstringOf(u)[j] != '_'
    ensures |u| >= 6 && u[..5] == XstringOf(u)[..5] && (u[5] == '_' || !IsXmlChar(u[5]))
  {
    XstringLeading(u, 4);
    XstringCopiesPrefix(u, 5);
    XstringOfEmpty();
    assert |u| > 5;
    XstringStep(u[5..]);
  }

  lemma EscapePrefix(p: string, q: string)
    requires |p| == 7 && StartsWithXEscape(p)
    ensures StartsWithXEscape(p + q) && XEscapeValue(p + q) == XEscapeValue(p) && (p + q)[7..] == q
  {
    assert (p + q)[2..6] == p[2..6];
  }

  /** A reader decoding the corrected output gets the original text back. */
  lemma {:induction false} XstringRoundTrip(t: string)
    ensures DecodeXstring(XstringOf(t)) == t
    decreases |t|
  {
    if |t| == 0 {
      XstringOfEmpty();
    } else {
      XstringDecodeStep(t);
      XstringRoundTrip(t[1..]);
      assert t == [t[0]] + t[1..];
    }
  }

  /** Decoding the escape of a text's first character gives that character back. */
  lemma XstringDecodeStep(t: string)
    requires |t| > 0
    ensures DecodeXstring(XstringOf(t)) == [t[0]] + DecodeXstring(XstringOf(t[1..]))
  {
    XstringStep(t);
    var rest := XstringOf(t[1..]);
    var o := XstringOf(t);
    if UnderscoreNeedsEscape(t) {
      var e := "_x005f_";
      assert e[2..6] == "005f";
      assert Hex4Value("005f") == 0x5F;
      EscapePrefix(e, rest);
    } else if !IsXmlChar(t[0]) {
      var e := CharEscape(t[0]);
      EscapePrefix(e, rest);
    } else if t[0] == '_' {
      NoFalseEscape(t);
      assert o == "_" + rest;
      assert o[1..] == rest;
    } else {
      assert o == [t[0]] + rest;
      assert o[1..] == rest;
    }
  }

  // Entity escaping commutes with the reading of entities and the ST_Xstring steps.

  lemma {:induction false} EntitiesCopyPrefix(s: string, k: nat)
    requires k <= |s|
    requires forall j | 0 <= j < k :: s[j] !in "&<>"
    ensures EscapeEntities(s) == s[..k] + EscapeEntities(s[k..])
    decreases k
  {
    if k > 0 {
      var t := s[1..];
      assert s[0] !in "&<>";
      PieceShape(s[0]);
      EntitiesCopyPrefix(t, k - 1);
      assert t[k - 1..] == s[k..];
      assert s[..k] == [s[0]] + t[..k - 1];
      Regroup([s[0]], t[..k - 1], EscapeEntities(s[k..]));
    }
  }

  lemma {:induction false} EntitiesLeading(s: string, k: nat)
    requires k < |EscapeEntities(s)|
    requires forall j | 0 <= j <= k :: EscapeEntities(s)[j] != '&'
    ensures k < |s|
    ensures forall j | 0 <= j <= k :: s[j] !in "&<>" && s[j] == EscapeEntities(s)[j]
    decreases k
  {
    if |s| > 0 {
      var o := EscapeEntities(s);
      PieceShape(s[0]);
      assert o == ValuePiece(s[0]) + EscapeEntities(s[1..]);
      assert o[0] == ValuePiece(s[0])[0];
      assert o == [s[0]] + EscapeEntities(s[1..]);
      if k > 0 {
        forall j | 0 <= j <= k - 1 ensures EscapeEntities(s[1..])[j] != '&' {
          assert EscapeEntities(s[1..])[j] == o[j + 1];
        }
        EntitiesLeading(s[1..], k - 1);
        forall j | 0 <= j <= k ensures s[j] !in "&<>" && s[j] == o[j] {
          if j > 0 {
            assert s[j] == s[1..][j - 1];
            assert o[j] == EscapeEntities(s[1..])[j - 1];
          }
        }
      }
    }
  }

  lemma EntitiesKeepNeedForward(s: string)
    requires UnderscoreNeedsEscape(s)
    ensures UnderscoreNeedsEscape(EscapeEntities(s))
  {
    var u := s[1..];
    PieceShape('_');
    assert EscapeEntities(s) == "_" + EscapeEntities(u);
    assert forall j | 0 <= j < 6 :: u[j] == s[j + 1] && u[j] !in "&<>";
    EntitiesCopyPrefix(u, 6);
  }

  lemma EntitiesKeepNeedBackward(s: string)
    requires |s| > 0 && s[0] == '_' && UnderscoreNeedsEscape(EscapeEntities(s))
    ensures UnderscoreNeedsEscape(s)
  {
    var u := s[1..];
    var o := EscapeEntities(s);
    var e := EscapeEntities(u);
    PieceShape('_');
    assert o == "_" + e;
    assert forall j | 0 <= j <= 5 :: e[j] == o[j + 1] && e[j] != '&';
    EntitiesLeading(u, 5);
    assert forall j | 1 <= j <= 6 :: s[j] == u[j - 1] == e[j - 1] == o[j];
  }

  /** Entity escaping neither creates nor hides an underscore that needs escaping. */
  lemma EntitiesKeepNeed(s: string)
    requires |s| > 0 && s[0] == '_'
    ensures UnderscoreNeedsEscape(EscapeEntities(s)) == UnderscoreNeedsEscape(s)
  {
    if UnderscoreNeedsEscape(s) {
      EntitiesKeepNeedForward(s);
    } else if UnderscoreNeedsEscape(EscapeEntities(s)) {
      EntitiesKeepNeedBackward(s);
    }
  }

  lemma EntityLegal(c: char)
    requires c in "&<>"
    ensures forall j | 0 <= j < |ValuePiece(c)| :: IsXmlChar(ValuePiece(c)[j]) && ValuePiece(c)[j] != '_'
  {
  }

  lemma UnescapeXstringEntity(s: string)
    requires |s| > 0 && s[0] in "&<>"
    requires Unescape(XstringOf(EscapeEntities(s[1..]))) == XstringOf(s[1..])
    ensures Unescape(XstringOf(EscapeEntities(s))) == XstringOf(s)
  {
    var xw := XstringOf(EscapeEntities(s[1..]));
    EntityEscapedXstring(s);
    EntityXstringStep(s);
    UnescapePiece(ValuePiece(s[0]), s[0], xw);
  }

  /** An entity the escaping emits passes the ST_Xstring steps unchanged. */
  lemma EntityEscapedXstring(s: string)
    requires |s| > 0 && s[0] in "&<>"
    ensures XstringOf(EscapeEntities(s)) == ValuePiece(s[0]) + XstringOf(EscapeEntities(s[1..]))
  {
    var w := EscapeEntities(s[1..]);
    var p := ValuePiece(s[0]);
    var e := p + w;
    assert EscapeEntities(s) == e;
    EntityLegal(s[0]);
    XstringCopiesPrefix(e, |p|);
    assert e[..|p|] == p && e[|p|..] == w;
  }

  /** The ST_Xstring steps keep `&`, `<` and `>` as they are. */
  lemma EntityXstringStep(s: string)
    requires |s| > 0 && s[0] in "&<>"
    ensures XstringOf(s) == [s[0]] + XstringOf(s[1..])
  {
    XstringStep(s);
    assert XstringPiece(s) == [s[0]];
  }

  /** The escapes the ST_Xstring steps emit hold no ampersand. */
  lemma PieceHasNoAmpersand(s: string)
    requires |s| > 0 && s[0] != '&'
    ensures '&' !in XstringPiece(s)
  {
    if !UnderscoreNeedsEscape(s) && !IsXmlChar(s[0]) {
      var h := Hex4(s[0] as int);
      assert XstringPiece(s) == "_x" + h + "_";
      assert '&' !in h;
    }
  }

  lemma UnescapeXstringOther(s: string)
    requires |s| > 0 && s[0] !in "&<>"
    requires Unescape(XstringOf(EscapeEntities(s[1..]))) == XstringOf(s[1..])
    ensures Unescape(XstringOf(EscapeEntities(s))) == XstringOf(s)
  {
    var w := EscapeEntities(s[1..]);
    var e := EscapeEntities(s);
    PieceShape(s[0]);
    assert e == [s[0]] + w;
    assert e[0] == s[0] && e[1..] == w;
    if s[0] == '_' {
      EntitiesKeepNeed(s);
    }
    assert UnderscoreNeedsEscape(e) == UnderscoreNeedsEscape(s);
    var q := XstringPiece(s);
    assert XstringPiece(e) == q;
    XstringStep(e);
    assert XstringOf(e) == q + XstringOf(w);
    PieceHasNoAmpersand(s);
    UnescapeCopies(q, XstringOf(w));
    XstringStep(s);
  }

  /** Resolving the entities of the corrected output leaves the ST_Xstring text of the original. */
  lemma {:induction false} UnescapeXstring(s: string)
    ensures Unescape(XstringOf(EscapeEntities(s))) == XstringOf(s)
    decreases |s|
  {
    if |s| == 0 {
      XstringOfEmpty();
    } else {
      UnescapeXstring(s[1..]);
      if s[0] in "&<>" {
        UnescapeXstringEntity(s);
      } else {
        UnescapeXstringOther(s);
      }
    }
  }

  /**
   * Reading the corrected output back (entities first, then ST_Xstring escapes) gives the
   * original text, for every text.
   */
  lemma EscapeValueFixedRoundTrip(s: string)
    ensures DecodeXstring(Unescape(EscapeValueFixed(s))) == s
  {
    UnescapeXstring(s);
    XstringRoundTrip(s);
  }

  /** The corrected output is XML 1.0 character data as well. */
  lemma EscapeValueFixedSafe(s: string)
    ensures forall c | c in EscapeValueFixed(s) :: IsXmlChar(c) && c != '<' && c != '>'
  {
    var e := EscapeEntities(s);
    EscapeEntitiesSafe(s);
    EscapeUnderscoresFixedChars(e);
    EscapeInvalidChars(EscapeUnderscoresFixed(e));
  }

  lemma {:induction false} EscapeUnderscoresFixedChars(s: string)
    ensures forall c | c in EscapeUnderscoresFixed(s) :: c in s || IsEscapeChar(c)
    decreases |s|
  {
    if |s| > 0 {
      EscapeUnderscoresFixedChars(s[1..]);
      assert forall d | d in s[1..] :: d in s;
    }
  }

  /** Entity escaping brings in no underscore. */
  lemma {:induction false} EscapeEntitiesNoUnderscore(s: string)
    requires '_' !in s
    ensures '_' !in EscapeEntities(s)
    decreases |s|
  {
    if |s| > 0 {
      EscapeEntitiesNoUnderscore(s[1..]);
      assert '_' !in ValuePiece(s[0]);
    }
  }

  lemma {:induction false} EscapeUnderscoresFixedCopies(s: string)
    requires '_' !in s
    ensures EscapeUnderscoresFixed(s) == s
    decreases |s|
  {
    if |s| > 0 {
      EscapeUnderscoresFixedCopies(s[1..]);
      assert s == [s[0]] + s[1..];
    }
  }

  /**
   * On text without an underscore neither underscore step has anything to do, so
   * escape_value as written agrees with the corrected one and reads back exactly.
   */
  lemma EscapeValueReadsBack(s: string)
    requires '_' !in s
    ensures EscapeValue(s) == EscapeValueFixed(s)
    ensures DecodeXstring(Unescape(EscapeValue(s))) == s
  {
    EscapeEntitiesNoUnderscore(s);
    EscapeUnderscoresCopies(EscapeEntities(s));
    EscapeUnderscoresFixedCopies(EscapeEntities(s));
    EscapeValueFixedRoundTrip(s);
  }

  // Counterexamples to the underscore step as written.

  lemma {:induction false} DecodeCopies(p: string, rest: string)
    requires forall j | 0 <= j < |p| :: p[j] != '_'
    ensures DecodeXstring(p + rest) == p + DecodeXstring(rest)
    decreases |p|
  {
    if |p| > 0 {
      var s := p + rest;
      assert s[0] == p[0] && s[1..] == p[1..] + rest;
      assert DecodeXstring(s) == [p[0]] + DecodeXstring(p[1..] + rest);
      DecodeCopies(p[1..], rest);
      Regroup([p[0]], p[1..], DecodeXstring(rest));
      assert p == [p[0]] + p[1..];
    } else {
      assert p + rest == rest;
    }
  }

  lemma ReadBackCopies(p: string)
    requires forall j | 0 <= j < |p| :: p[j] !in "&<>" && IsXmlChar(p[j])
    ensures EscapeEntities(p) == p && EscapeInvalid(p) == p && Unescape(p) == p
  {
    EscapeEntitiesPlain(p);
    EscapeInvalidCopies(p);
    UnescapeCopies(p, "");
    assert p + "" == p;
  }

  lemma {:induction false} EscapeUnderscoresCopies(s: string)
    requires '_' !in s
    ensures EscapeUnderscores(s) == s
    decreases |s|
  {
    if |s| > 0 {
      EscapeUnderscoresCopies(s[1..]);
      assert s == [s[0]] + s[1..];
    }
  }

  lemma DecodeOne(e: string, v: nat)
    requires StartsWithXEscape(e) && |e| == 7 && XEscapeValue(e) == v && IsScalar(v)
    ensures DecodeXstring(e) == [v as char]
  {
    assert e[7..] == "";
  }

  lemma OverlapLegal(t: string)
    requires t == "_x0041_x0042_" || t == "_x005f_x0041_x0042_"
    ensures forall j | 0 <= j < |t| :: t[j] !in "&<>" && IsXmlChar(t[j])
  {
  }

  lemma OverlapUnderscores(t: string)
    requires t == "_x0041_x0042_"
    ensures EscapeUnderscores(t) == "_x005f_x0041_x0042_"
  {
    assert StartsWithXEscape(t);
    assert t[1..7] == "x0041_" && t[7..] == "x0042_";
    assert !StartsWithXEscape("x0042_");
  }

  lemma OverlapWritten(t: string)
    requires t == "_x0041_x0042_"
    ensures Unescape(EscapeValue(t)) == "_x005f_x0041_x0042_"
  {
    OverlapLegal(t);
    ReadBackCopies(t);
    OverlapUnderscores(t);
    OverlapLegal("_x005f_x0041_x0042_");
    ReadBackCopies("_x005f_x0041_x0042_");
  }

  lemma DecodeEscapeThen(e: string, r: string, v: nat)
    requires StartsWithXEscape(e) && |e| == 7 && XEscapeValue(e) == v && IsScalar(v)
    ensures DecodeXstring(e + r) == [v as char] + DecodeXstring(r)
  {
    assert (e + r)[..7] == e && (e + r)[7..] == r;
    assert (e + r)[2..6] == e[2..6];
  }

  lemma EscapeOf(e: string, v: nat)
    requires (e == "_x005f_" && v == 0x5F) || (e == "_x0042_" && v == 0x42) || (e == "_xABCD_" && v == 0xABCD)
    ensures StartsWithXEscape(e) && |e| == 7 && XEscapeValue(e) == v && IsScalar(v)
  {
    assert e[2..6] == "005f" || e[2..6] == "0042" || e[2..6] == "ABCD";
  }

  lemma OverlapRead(o: string)
    requires o == "_x005f_x0041_x0042_"
    ensures DecodeXstring(o) == "_x0041B"
  {
    OverlapDecoded(o);
    OverlapJoined();
  }

  lemma OverlapJoined()
    ensures [0x5F as char] + ("x0041" + [0x42 as char]) == "_x0041B"
  {
  }

  lemma OverlapDecoded(o: string)
    requires o == "_x005f_x0041_x0042_"
    ensures DecodeXstring(o) == [0x5F as char] + ("x0041" + [0x42 as char])
  {
    var e, b := "_x005f_", "_x0042_";
    assert o == e + ("x0041" + b);
    EscapeOf(e, 0x5F);
    DecodeEscapeThen(e, "x0041" + b, 0x5F);
    DecodeCopies("x0041", b);
    EscapeOf(b, 0x42);
    DecodeOne(b, 0x42);
  }

  /**
   * Two escapes sharing an underscore: the as-written step escapes only the first, so a
   * reader turns the second into `B`.
   */
  lemma EscapeValueOverlapCounterexample()
    ensures DecodeXstring(Unescape(EscapeValue("_x0041_x0042_"))) == "_x0041B"
  {
    OverlapWritten("_x0041_x0042_");
    OverlapRead("_x005f_x0041_x0042_");
  }

  lemma PlaceholderLegal(t: string)
    requires t == "_xABCD" || t == "_xABCD_x0001_"
    ensures forall j | 0 <= j < |t| :: t[j] !in "&<>" && IsXmlChar(t[j])
  {
  }

  lemma PlaceholderEntities(t: string)
    requires t == "_xABCD\U{1}"
    ensures EscapeEntities(t) == t
  {
    var u := '\U{1}';
    assert t == "_xABCD" + [u];
    PlaceholderLegal("_xABCD");
    EscapeEntitiesPlain("_xABCD");
    EscapeEntitiesConcat("_xABCD", [u]);
    EscapeAttrChar(u);
    assert ValuePiece(u) == [u];
  }

  lemma PlaceholderUnderscores(t: string)
    requires t == "_xABCD\U{1}"
    ensures EscapeUnderscores(t) == t
  {
    assert !StartsWithXEscape(t);
    assert t == [t[0]] + t[1..];
    assert '_' !in t[1..];
    EscapeUnderscoresCopies(t[1..]);
  }

  lemma PlaceholderInvalid(t: string)
    requires t == "_xABCD\U{1}"
    ensures EscapeInvalid(t) == "_xABCD_x0001_"
  {
    var u := '\U{1}';
    assert t == "_xABCD" + [u];
    EscapeInvalidConcat("_xABCD", [u]);
    PlaceholderLegal("_xABCD");
    EscapeInvalidCopies("_xABCD");
    EscapeOne(u);
    PlaceholderJoined();
  }

  lemma PlaceholderJoined()
    ensures "_xABCD" + "_x0001_" == "_xABCD_x0001_"
  {
  }

  lemma EscapeOne(u: char)
    requires u == '\U{1}'
    ensures EscapeInvalid([u]) == "_x0001_"
  {
    assert EscapeInvalid([u]) == InvalidPiece(u) + EscapeInvalid([]) by {
      assert [u][1..] == [];
    }
    assert !IsXmlChar(u);
    HexOfOne();
  }

  lemma HexOfOne()
    ensures Hex4(1) == "0001"
  {
    assert 1 / 4096 == 0 && 1 / 256 % 16 == 0 && 1 / 16 % 16 == 0 && 1 % 16 == 1;
  }

  lemma PlaceholderWritten(t: string)
    requires t == "_xABCD\U{1}"
    ensures EscapeValue(t) == "_xABCD_x0001_"
  {
    PlaceholderEntities(t);
    PlaceholderUnderscores(t);
    PlaceholderInvalid(t);
  }

  lemma PlaceholderRead(o: string)
    requires o == "_xABCD_x0001_"
    ensures DecodeXstring(o) == "\U{ABCD}x0001_"
  {
    var e := "_xABCD_";
    assert o == e + ("x0001" + "_");
    EscapeOf(e, 0xABCD);
    DecodeEscapeThen(e, "x0001" + "_", 0xABCD);
    DecodeCopies("x0001", "_");
  }

  /**
   * An escape completed by the placeholder of a following illegal character: the
   * underscore step runs before the placeholder exists, so a reader turns `_xABCD` and
   * the placeholder's underscore into U+ABCD.
   */
  lemma EscapeValuePlaceholderCounterexample()
    ensures DecodeXstring(Unescape(EscapeValue("_xABCD\U{1}"))) == "\U{ABCD}x0001_"
  {
    PlaceholderWritten("_xABCD\U{1}");
    PlaceholderLegal("_xABCD_x0001_");
    ReadBackCopies("_xABCD_x0001_");
    PlaceholderRead("_xABCD_x0001_");
  }

  // ---------------------------------------------------------------------------
  // Whitespace between tags

  /** Ruby's `\s`: space, tab, line feed, vertical tab, form feed, carriage return. */
  predicate IsSpace(c: char)
  {
    c == ' ' || c == '\t' || c == '\n' || c == '\r' || c == '\U{B}' || c == '\U{C}'
  }

  /** The end of the whitespace run starting at i. */
  function RunEnd(s: string, i: nat): (j: nat)
    requires i <= |s|
    ensures i <= j <= |s|
    ensures forall k | i <= k < j :: IsSpace(s[k])
    ensures j == |s| || !IsSpace(s[j])
    decreases |s| - i
  {
    if i < |s| && IsSpace(s[i]) then RunEnd(s, i + 1) else i
  }

  /** WS_AROUND_TAGS matches the run s[i..j]: it follows `>` or precedes `<`. */
  predicate RunTouchesTag(s: string, i: nat, j: nat)
    requires i <= j <= |s|
  {
    (0 < i && s[i - 1] == '>') || (j < |s| && s[j] == '<')
  }

  /** XML.strip on s[i..], where i is not inside a whitespace run. */
  function StripFrom(s: string, i: nat): string
    requires i <= |s|
    decreases |s| - i
  {
    if i == |s| then ""
    else if !IsSpace(s[i]) then [s[i]] + StripFrom(s, i + 1)
    else
      var j := RunEnd(s, i);
      (if RunTouchesTag(s, i, j) then "" else s[i..j]) + StripFrom(s, j)
  }

  /** XML.strip: every whitespace run right after `>` or right before `<` is removed. */
  function Strip(s: string): string
  {
    StripFrom(s, 0)
  }

  /** No whitespace right after `>` or right before `<`. */
  predicate Tidy(s: string)
  {
    forall i | 0 <= i < |s| - 1 :: !(s[i] == '>' && IsSpace(s[i + 1])) && !(IsSpace(s[i]) && s[i + 1] == '<')
  }

  /** The characters of s that are not whitespace, in order. */
  function NonSpace(s: string): string
    decreases |s|
  {
    if |s| == 0 then "" else (if IsSpace(s[0]) then "" else [s[0]]) + NonSpace(s[1..])
  }

  lemma {:induction false} NonSpaceConcat(a: string, b: string)
    ensures NonSpace(a + b) == NonSpace(a) + NonSpace(b)
    decreases |a|
  {
    if |a| > 0 {
      var t := a[1..];
      var h := if IsSpace(a[0]) then "" else [a[0]];
      assert (a + b)[0] == a[0] && (a + b)[1..] == t + b;
      NonSpaceConcat(t, b);
      assert NonSpace(a + b) == h + (NonSpace(t) + NonSpace(b));
      Regroup(h, NonSpace(t), NonSpace(b));
    } else {
      assert a + b == b;
    }
  }

  lemma {:induction false} NonSpaceOfRun(r: string)
    requires forall k | 0 <= k < |r| :: IsSpace(r[k])
    ensures NonSpace(r) == ""
    decreases |r|
  {
    if |r| > 0 {
      NonSpaceOfRun(r[1..]);
    }
  }

  lemma {:induction false} StripFromKeepsText(s: string, i: nat)
    requires i <= |s|
    ensures NonSpace(StripFrom(s, i)) == NonSpace(s[i..])
    decreases |s| - i
  {
    if i < |s| {
      if !IsSpace(s[i]) {
        StripFromKeepsText(s, i + 1);
        assert s[i..] == [s[i]] + s[i + 1..];
        NonSpaceConcat([s[i]], s[i + 1..]);
        NonSpaceConcat([s[i]], StripFrom(s, i + 1));
        assert [s[i]][1..] == [];
      } else {
        var j := RunEnd(s, i);
        StripFromKeepsText(s, j);
        assert s[i..] == s[i..j] + s[j..];
        NonSpaceConcat(s[i..j], s[j..]);
        NonSpaceOfRun(s[i..j]);
        var kept := if RunTouchesTag(s, i, j) then "" else s[i..j];
        NonSpaceConcat(kept, StripFrom(s, j));
      }
    }
  }

  /** Stripping removes whitespace only: the other characters survive in order. */
  lemma StripKeepsText(s: string)
    ensures NonSpace(Strip(s)) == NonSpace(s)
  {
    StripFromKeepsText(s, 0);
    assert s[0..] == s;
  }

  lemma TidyConcat(a: string, b: string)
    requires Tidy(a) && Tidy(b)
    requires |a| > 0 && |b| > 0 ==> !(a[|a| - 1] == '>' && IsSpace(b[0])) && !(IsSpace(a[|a| - 1]) && b[0] == '<')
    ensures Tidy(a + b)
  {
    var r := a + b;
    forall i | 0 <= i < |r| - 1
      ensures !(r[i] == '>' && IsSpace(r[i + 1])) && !(IsSpace(r[i]) && r[i + 1] == '<')
    {
      if i < |a| - 1 {
        assert r[i] == a[i] && r[i + 1] == a[i + 1];
      } else if i >= |a| {
        assert r[i] == b[i - |a|] && r[i + 1] == b[i - |a| + 1];
      }
    }
  }

  /**
   * The result from a run boundary i is tidy, and it starts with whitespace only when s[i]
   * starts a run that touches no tag.
   */
  lemma {:induction false} StripFromTidy(s: string, i: nat)
    requires i <= |s|
    requires i == 0 || i == |s| || !IsSpace(s[i - 1]) || !IsSpace(s[i])
    ensures Tidy(StripFrom(s, i))
    ensures var r := StripFrom(s, i);
      |r| > 0 && IsSpace(r[0]) ==> i < |s| && IsSpace(s[i]) && !RunTouchesTag(s, i, RunEnd(s, i))
    ensures var r := StripFrom(s, i);
      |r| > 0 && !IsSpace(r[0]) ==> RunEnd(s, i) < |s| && r[0] == s[RunEnd(s, i)]
    decreases |s| - i
  {
    if i < |s| {
      if !IsSpace(s[i]) {
        StripFromTidy(s, i + 1);
        StripCharStep(s, i);
      } else {
        StripFromTidy(s, RunEnd(s, i));
        StripRunStep(s, i);
      }
    }
  }

  /** What StripFromTidy states of the stripped text from i on. */
  ghost predicate StrippedShape(s: string, i: nat)
    requires i <= |s|
  {
    var r := StripFrom(s, i);
    && Tidy(r)
    && (|r| > 0 && IsSpace(r[0]) ==> i < |s| && IsSpace(s[i]) && !RunTouchesTag(s, i, RunEnd(s, i)))
    && (|r| > 0 && !IsSpace(r[0]) ==> RunEnd(s, i) < |s| && r[0] == s[RunEnd(s, i)])
  }

  lemma StripCharStep(s: string, i: nat)
    requires i < |s| && !IsSpace(s[i]) && StrippedShape(s, i + 1)
    ensures StrippedShape(s, i)
  {
    var rest := StripFrom(s, i + 1);
    if |rest| > 0 && IsSpace(rest[0]) {
      assert RunTouchesTag(s, i + 1, RunEnd(s, i + 1)) || s[i] != '>';
    }
    TidyConcat([s[i]], rest);
  }

  lemma StripRunStep(s: string, i: nat)
    requires i < |s| && IsSpace(s[i]) && StrippedShape(s, RunEnd(s, i))
    ensures StrippedShape(s, i)
  {
    var j := RunEnd(s, i);
    var rest := StripFrom(s, j);
    assert RunEnd(s, j) == j;
    assert |rest| > 0 ==> j < |s| && !IsSpace(rest[0]) && rest[0] == s[j];
    if RunTouchesTag(s, i, j) {
      assert StripFrom(s, i) == rest;
    } else {
      RunKept(s, i, j, rest);
    }
  }

  /** A whitespace run that touches no tag stays, and the text after it starts with no space. */
  lemma RunKept(s: string, i: nat, j: nat, rest: string)
    requires i < j <= |s| && j == RunEnd(s, i) && IsSpace(s[i]) && !RunTouchesTag(s, i, j)
    requires rest == StripFrom(s, j) && Tidy(rest)
    requires |rest| > 0 ==> j < |s| && !IsSpace(rest[0]) && rest[0] == s[j]
    ensures Tidy(s[i..j] + rest)
  {
    var run := s[i..j];
    assert Tidy(run);
    TidyConcat(run, rest);
  }

  /** After stripping there is no whitespace right after `>` or right before `<`. */
  lemma StripTidy(s: string)
    ensures Tidy(Strip(s))
  {
    StripFromTidy(s, 0);
  }

  /** Text that is already tidy comes out of XML.strip unchanged. */
  lemma {:induction false} StripFromIdentity(s: string, i: nat)
    requires i <= |s| && Tidy(s)
    ensures StripFrom(s, i) == s[i..]
    decreases |s| - i
  {
    if i < |s| {
      if !IsSpace(s[i]) {
        StripFromIdentity(s, i + 1);
        assert s[i..] == [s[i]] + s[i + 1..];
      } else {
        var j := RunEnd(s, i);
        StripFromIdentity(s, j);
        assert s[i..] == s[i..j] + s[j..];
        assert !RunTouchesTag(s, i, j) by {
          if 0 < i {
            assert !(IsSpace(s[i]) && s[i - 1] == '>');
          }
          if j < |s| {
            assert !(IsSpace(s[j - 1]) && s[j] == '<');
          }
        }
      }
    }
  }

  lemma StripIdentity(s: string)
    requires Tidy(s)
    ensures Strip(s) == s
  {
    StripFromIdentity(s, 0);
    assert s[0..] == s;
  }
}
