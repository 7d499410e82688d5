/**
 * The Ruby values a row may hold, as far as the encoders tell them apart, and the parts
 * of the Ruby runtime the model leaves abstract (float rendering, date-time parsing and
 * the floating-point serials of times).
 */
module Values {
  import opened Text
  import opened Calendar

  /** A Date object always names a real calendar day. */
  type Day = d: CivilDate | ValidCivil(d) witness CivilDate(1970, 1, 1)

  datatype Value =
    | Nil
    | Bool(b: bool)
    | Int(i: int)
    | Float(literal: string)   // the Float a decimal literal denotes
    | Number(text: string)     // any other Numeric (BigDecimal, Rational, Complex), known by its to_s
    | Date(date: Day)
    | Time(stamp: string)      // a Time, known by the instant it names
    | DateTime(stamp: string)  // a DateTime, known by the instant it names
    | Str(s: string)
    | Other(text: string)      // any other object, known by its to_s
  {
    /** `is_a?(Numeric)`. */
    predicate IsNumeric() { Int? || Float? || Number? }

    /** The values whose encoding goes through `to_s`. */
    predicate IsTextual() { Nil? || Bool? || Str? || Other? }
  }

  /** The runtime services the encoders call and the model does not open up. */
  datatype Runtime = Runtime(
    floatText: string -> string,          // Float#to_s of the float a literal denotes
    dateTimeParses: string -> bool,       // DateTime.parse accepts the text
    rowTimeSerial: string -> string,      // row.rb: time_to_oa_date(time).to_s for a Time
    rowDateTimeSerial: string -> string,  // row.rb: the same for a DateTime
    extTimeSerial: string -> string,      // core_extension.rb: the Time serial, as text
    extDateTimeSerial: string -> string   // core_extension.rb: the DateTime serial, as text
  )

  /** `to_s` of a value the encoders stringify. */
  function ToS(v: Value): (r: string)
    requires v.IsTextual()
    ensures v.Str? ==> r == v.s
    ensures v.Nil? ==> r == ""
    ensures v.Bool? ==> r == (if v.b then "true" else "false")
    ensures v.Other? ==> r == v.text
    ensures r == "" <==> v.Nil? || v == Str("") || v == Other("")
  {
    match v
    case Nil => ""
    case Bool(b) => if b then "true" else "false"
    case Str(s) => s
    case Other(t) => t
  }

  /** `to_s` of a Numeric. */
  function NumberText(rt: Runtime, v: Value): string
    requires v.IsNumeric()
  {
    match v
    case Int(i) => IntToString(i)
    case Float(literal) => rt.floatText(literal)
    case Number(text) => text
  }

  /** The text of a whole-number Float: Ruby prints 2.0 for the float 2. */
  function WholeFloatText(n: int): (r: string)
    ensures |r| >= 3 && r[|r| - 2..] == ".0"
    ensures IsIntegerText(r[..|r| - 2]) && ParseInteger(r[..|r| - 2]) == n
  {
    IntegerRoundTrip(n);
    assert (IntToString(n) + ".0")[..|IntToString(n)|] == IntToString(n);
    IntToString(n) + ".0"
  }
}
