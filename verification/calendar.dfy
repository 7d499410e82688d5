/**
 * Calendar dates as the writer serialises them. A date is a proleptic Gregorian
 * (year, month, day) triple. row.rb turns it into a spreadsheet serial through the Unix
 * epoch (days since 1970-01-01 plus 25569), core_extension.rb through Ruby's Julian Day
 * Number (jd - 2415019). Both serials count days since 1899-12-30.
 */
module Calendar {
  import opened Text
  import opened Wrappers

  datatype CivilDate = CivilDate(year: int, month: int, day: int)

  predicate IsLeapYear(y: int)
  {
    y % 4 == 0 && (y % 100 != 0 || y % 400 == 0)
  }

  function DaysInMonth(y: int, m: int): (n: nat)
    requires 1 <= m <= 12
    ensures 28 <= n <= 31
  {
    if m == 2 then (if IsLeapYear(y) then 29 else 28)
    else if m == 4 || m == 6 || m == 9 || m == 11 then 30
    else 31
  }

  /** The triple names a day of the Gregorian calendar. */
  predicate ValidCivil(d: CivilDate)
  {
    1 <= d.month <= 12 && 1 <= d.day <= DaysInMonth(d.year, d.month)
  }

  /**
   * Days from 1970-01-01 to d, counted by eras of 400 years whose years start on
   * 1 March, so that the leap day falls last.
   */
  function DaysFromCivil(d: CivilDate): int
    requires ValidCivil(d)
  {
    var y := if d.month <= 2 then d.year - 1 else d.year;
    var era := y / 400;
    var yoe := y % 400;
    var mp := if d.month > 2 then d.month - 3 else d.month + 9;
    var doy := (153 * mp + 2) / 5 + d.day - 1;
    var doe := yoe * 365 + yoe / 4 - yoe / 100 + doy;
    era * 146097 + doe - 719468
  }

  /**
   * Date#jd for a Gregorian date: the Julian Day Number in the form Ruby's date library
   * computes it, with January and February counted as months 13 and 14 of the
   * previous year.
   */
  function JulianDay(d: CivilDate): int
    requires ValidCivil(d)
  {
    var y := if d.month <= 2 then d.year - 1 else d.year;
    var m := if d.month <= 2 then d.month + 12 else d.month;
    var a := y / 100;
    var b := 2 - a + a / 4;
    (1461 * (y + 4716)) / 4 + (306001 * (m + 1)) / 10000 + d.day + b - 1524
  }

  /** row.rb's serial: midnight of the date read as UTC, in days, plus 25569. */
  function EpochSerial(d: CivilDate): int
    requires ValidCivil(d)
  {
    DaysFromCivil(d) + 25569
  }

  /** core_extension.rb's serial: the Julian Day Number minus 2415019. */
  function JulianSerial(d: CivilDate): int
    requires ValidCivil(d)
  {
    JulianDay(d) - 2415019
  }

  lemma FloorNest(y: int)
    ensures (y / 100) / 4 == y / 400
  {
  }

  lemma YearParts(y: int)
    ensures (y % 400) / 4 == y / 4 - (y / 400) * 100
    ensures (y % 400) / 100 == y / 100 - (y / 400) * 4
    ensures (1461 * (y + 4716)) / 4 == 365 * y + y / 4 + 365 * 4716 + 1179
  {
    var era := y / 400;
    var yoe := y % 400;
    assert y == era * 400 + yoe;
    assert y / 4 == era * 100 + yoe / 4;
    assert y / 100 == era * 4 + yoe / 100;
    assert 1461 * (y + 4716) == 4 * (365 * y + 365 * 4716 + 1179) + y;
  }

  /** The two ways of counting days agree on every date: JD 2440588 is 1970-01-01. */
  lemma JulianDayFromEpoch(d: CivilDate)
    requires ValidCivil(d)
    ensures JulianDay(d) == DaysFromCivil(d) + 2440588
  {
    var y := if d.month <= 2 then d.year - 1 else d.year;
    FloorNest(y);
    YearParts(y);
    assert y == (y / 400) * 400 + y % 400;
  }

  /** Both encoders give every date the same serial. */
  lemma SerialsAgree(d: CivilDate)
    requires ValidCivil(d)
    ensures JulianSerial(d) == EpochSerial(d)
  {
    JulianDayFromEpoch(d);
  }

  /** Serial 2 is 1900-01-01, whose Julian Day Number is 2415021. */
  lemma SerialOf1900(d: CivilDate)
    requires d == CivilDate(1900, 1, 1)
    ensures ValidCivil(d)
    ensures JulianDay(d) == 2415021
    ensures EpochSerial(d) == 2 && JulianSerial(d) == 2
  {
    JulianDayFromEpoch(d);
  }

  /** Consecutive days of a month have consecutive serials. */
  lemma NextDaySerial(d: CivilDate)
    requires ValidCivil(d) && d.day < DaysInMonth(d.year, d.month)
    ensures EpochSerial(d.(day := d.day + 1)) == EpochSerial(d) + 1
  {
  }

  // ---- the text form yyyy-mm-dd ----

  /** n as exactly w decimal digits, with leading zeros. */
  function Fixed(n: nat, w: nat): (r: string)
    ensures |r| == w && AllDigits(r)
    decreases w
  {
    if w == 0 then [] else Fixed(n / 10, w - 1) + [DigitChar(n % 10)]
  }

  function Pow10(w: nat): (p: nat)
    ensures p >= 1
  {
    if w == 0 then 1 else 10 * Pow10(w - 1)
  }

  lemma {:induction false} FixedValue(n: nat, w: nat)
    requires n < Pow10(w)
    ensures DigitsValue(Fixed(n, w)) == n
    decreases w
  {
    if w > 0 {
      var r := Fixed(n, w);
      assert r[..|r| - 1] == Fixed(n / 10, w - 1);
      FixedValue(n / 10, w - 1);
    }
  }

  /** The text DATE_PATTERN accepts: four digits, '-', two digits, '-', two digits. */
  predicate IsDateText(s: string)
  {
    |s| == 10 && s[4] == '-' && s[7] == '-'
    && AllDigits(s[..4]) && AllDigits(s[5..7]) && AllDigits(s[8..])
  }

  /** The fields of a date text, before any calendar check. */
  function DateFields(s: string): (d: CivilDate)
    requires IsDateText(s)
    ensures 0 <= d.year <= 9999 && 0 <= d.month <= 99 && 0 <= d.day <= 99
  {
    FieldBound(s[..4]);
    FieldBound(s[5..7]);
    FieldBound(s[8..]);
    CivilDate(DigitsValue(s[..4]), DigitsValue(s[5..7]), DigitsValue(s[8..]))
  }

  /** Printing the fields of a date text, zero-padded, gives the text back. */
  lemma DateFieldsPrintBack(s: string)
    requires IsDateText(s)
    ensures DateText(DateFields(s)) == s
  {
    FixedDigits(s[..4]);
    FixedDigits(s[5..7]);
    FixedDigits(s[8..]);
    assert s == s[..4] + "-" + s[5..7] + "-" + s[8..];
  }

  /** A run of digits, leading zeros included, is the zero-padded rendering of its value. */
  lemma {:induction false} FixedDigits(t: string)
    requires AllDigits(t)
    ensures Fixed(DigitsValue(t), |t|) == t
    decreases |t|
  {
    if |t| > 0 {
      var w := |t| - 1;
      var n := DigitsValue(t);
      assert n / 10 == DigitsValue(t[..w]) && n % 10 == DigitValue(t[w]);
      FixedDigits(t[..w]);
      assert t == t[..w] + [t[w]];
    }
  }

  lemma {:induction false} FieldBound(s: string)
    requires AllDigits(s)
    ensures DigitsValue(s) < Pow10(|s|)
    decreases |s|
  {
    if |s| > 0 {
      FieldBound(s[..|s| - 1]);
    }
  }

  /** Date.parse on a text DATE_PATTERN accepted: the date it names, or an error for a day the calendar lacks. */
  function ParseIsoDate(s: string): (r: Result<CivilDate>)
    requires IsDateText(s)
    ensures r.Ok? <==> ValidCivil(DateFields(s))
    ensures r.Ok? ==> r.value == DateFields(s)
    ensures r.Err? ==> r.error == InvalidDate(s)
  {
    var d := DateFields(s);
    if ValidCivil(d) then Ok(d) else Err(InvalidDate(s))
  }

  /** Date#iso8601 for a date of a four-digit year. */
  function DateText(d: CivilDate): (s: string)
    requires 0 <= d.year <= 9999 && 0 <= d.month <= 99 && 0 <= d.day <= 99
    ensures |s| == 10
  {
    Fixed(d.year, 4) + "-" + Fixed(d.month, 2) + "-" + Fixed(d.day, 2)
  }

  /**
   * The other direction of the round trip: a text Date.parse accepts is the `iso8601` text
   * of the date it names, so no two accepted texts name the same date.
   */
  lemma ParseIsoDateReadsBack(s: string)
    requires IsDateText(s)
    ensures ParseIsoDate(s).Ok? <==> ValidCivil(DateFields(s))
    ensures ParseIsoDate(s).Ok? ==> DateText(ParseIsoDate(s).value) == s
  {
    DateFieldsPrintBack(s);
  }

  /** Every date of a four-digit year prints as a text that DATE_PATTERN accepts and Date.parse reads back. */
  lemma DateTextRoundTrip(d: CivilDate)
    requires ValidCivil(d) && 0 <= d.year <= 9999
    ensures IsDateText(DateText(d))
    ensures ParseIsoDate(DateText(d)) == Ok(d)
  {
    var s := DateText(d);
    assert s[..4] == Fixed(d.year, 4);
    assert s[5..7] == Fixed(d.month, 2);
    assert s[8..] == Fixed(d.day, 2);
    FixedValue(d.year, 4);
    FixedValue(d.month, 2);
    FixedValue(d.day, 2);
  }

  /** Date.parse rejects a February 29 outside leap years, such as 1900-02-29. */
  lemma NoLeapDay1900(s: string)
    requires s == "1900-02-29"
    ensures IsDateText(s) && ParseIsoDate(s) == Err(InvalidDate(s))
  {
    LeapDay1900Fields(s);
    assert !ValidCivil(CivilDate(1900, 2, 29));
  }

  lemma LeapDay1900Fields(s: string)
    requires s == "1900-02-29"
    ensures IsDateText(s) && DateFields(s) == CivilDate(1900, 2, 29)
  {
    assert s[..4] == "1900" && s[5..7] == "02" && s[8..] == "29";
    assert DigitsValue("1900") == 1900 by {
      assert "1900"[..3] == "190" && "190"[..2] == "19" && "19"[..1] == "1";
    }
    assert DigitsValue("02") == 2 by {
      assert "02"[..1] == "0";
    }
    assert DigitsValue("29") == 29 by {
      assert "29"[..1] == "2";
    }
  }

}
