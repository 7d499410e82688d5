/**
 * core_extension.rb: the older per-class encoders, `to_xslx_value(cid, auto_format, sst)`
 * on Object, Numeric, true, false, Time, DateTime, Date and String. Dates go through the
 * Julian Day Number (the MRI branch), booleans get cells of their own, and every other
 * object is encoded as its `to_s` text.
 */
module CoreExtension {
  import opened Wrappers
  import opened Text
  import opened Calendar
  import opened Values
  import opened Rows
  import SharedStrings

  function BoolCell(cid: string, b: bool): string
  {
    "<c r=\"" + cid + "\" t=\"b\"><v>" + (if b then "1" else "0") + "</v></c>"
  }

  /**
   * String#to_xslx_value: nothing for the empty text; with auto_format the call of
   * Row.auto_format, which Row does not define as a class method; otherwise the same
   * shared-string or inline cell Row#to_xml writes.
   */
  function StringValue(cid: string, s: string, autoFormat: bool, sst: Option<SharedStrings.Table>): (r: Result<Encoded>)
    ensures r.Err? <==> s != "" && autoFormat
    ensures r.Err? ==> r.error == MissingMethod("auto_format")
    ensures s == "" ==> r == Ok(Encoded("", sst))
  {
    if s == "" then Ok(Encoded("", sst))
    else if autoFormat then Err(MissingMethod("auto_format"))
    else Ok(TextCell(cid, s, sst))
  }

  /** `value.to_xslx_value(cid, auto_format, sst)`, dispatched on the value's class. */
  function ToXslxValue(rt: Runtime, cid: string, v: Value, autoFormat: bool, sst: Option<SharedStrings.Table>): (r: Result<Encoded>)
    ensures r.Err? ==> v.Str? && autoFormat
    ensures v.IsNumeric() ==> r == Ok(Encoded(NumberCell(cid, NumberText(rt, v)), sst))
  {
    match v
    case Int(_) => Ok(Encoded(NumberCell(cid, NumberText(rt, v)), sst))
    case Float(_) => Ok(Encoded(NumberCell(cid, NumberText(rt, v)), sst))
    case Number(_) => Ok(Encoded(NumberCell(cid, NumberText(rt, v)), sst))
    case Bool(b) => Ok(Encoded(BoolCell(cid, b), sst))
    case Time(stamp) => Ok(Encoded(StyledCell(cid, TimeStyle, rt.extTimeSerial(stamp)), sst))
    case DateTime(stamp) => Ok(Encoded(StyledCell(cid, TimeStyle, rt.extDateTimeSerial(stamp)), sst))
    case Date(d) => Ok(Encoded(StyledCell(cid, DateStyle, WholeFloatText(JulianSerial(d))), sst))
    case Str(s) => StringValue(cid, s, autoFormat, sst)
    case Nil => StringValue(cid, ToS(v), false, sst)
    case Other(_) => StringValue(cid, ToS(v), false, sst)
  }

  /**
   * The two encoders agree on every value except booleans and times: numbers, dates
   * (through equal serials, counted in the proleptic Gregorian calendar), strings and
   * other objects give the same markup and the same shared string table.
   */
  lemma AgreesWithRow(rt: Runtime, cid: string, v: Value, sst: Option<SharedStrings.Table>)
    requires !v.Bool? && !v.Time? && !v.DateTime?
    ensures ToXslxValue(rt, cid, v, false, sst) == Ok(EncodeValue(rt, cid, v, sst))
  {
    if v.Date? {
      SerialsAgree(v.date);
    }
  }

  /** A boolean is a t="b" cell here, while Row#to_xml writes its text. */
  lemma BooleansDiffer(rt: Runtime, cid: string, b: bool)
    ensures ToXslxValue(rt, cid, Bool(b), false, None).Ok?
    ensures ToXslxValue(rt, cid, Bool(b), false, None).value.xml != EncodeValue(rt, cid, Bool(b), None).xml
    ensures EncodeValue(rt, cid, Bool(b), None).xml == InlineCell(cid, if b then "true" else "false")
  {
    var here := ToXslxValue(rt, cid, Bool(b), false, None).value.xml;
    var there := EncodeValue(rt, cid, Bool(b), None).xml;
    assert here[|cid| + 11] == 'b';
    assert there[|cid| + 11] == 'i';
  }

  /** Every object other than a String is encoded with auto-format off, so no value but a String fails. */
  lemma OnlyStringsFail(rt: Runtime, cid: string, v: Value, autoFormat: bool, sst: Option<SharedStrings.Table>)
    ensures ToXslxValue(rt, cid, v, autoFormat, sst).Err? <==> v.Str? && v.s != "" && autoFormat
  {
  }

  /** The date 1900-01-01 (Julian Day 2415021) is a date-styled cell with serial 2.0. */
  lemma DateValue(rt: Runtime, cid: string, d: Day)
    requires d == CivilDate(1900, 1, 1)
    ensures ToXslxValue(rt, cid, Date(d), false, None) == Ok(Encoded(StyledCell(cid, DateStyle, "2.0"), None))
  {
    SerialOf1900(d);
    assert WholeFloatText(2) == "2.0";
  }
}
