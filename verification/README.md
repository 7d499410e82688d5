# xlsxtream's serialisation core, modelled in Dafny

xlsxtream is a streaming XLSX writer for Ruby. This project models the deterministic part of
it: the code that turns rows of Ruby values into the exact XML text of each package part, and
that decides the order and names under which those parts reach the output sink. It then
proves properties of that model.

The model follows the code in `lib/`. Where a test expects behaviour this code does not have,
the model follows the code. Three examples:

- Boolean cells in `Row` (test/xlsxtream/row_test.rb:31-51): row.rb has no boolean
  branch, so `true` becomes the inline text "true".
- `Workbook#stylesheet`: the stylesheet is modelled on its own.
- Workbook-level `:columns` and `:name`: workbook.rb:65 forwards only `:sst` and
  `:auto_format`.

## Modules

| file | module | what it models |
|---|---|---|
| text.dfy | `Text` | decimal and `%04X` rendering, integer parsing, `Array#join`, ASCII `downcase` |
| wrappers.dfy | `Wrappers` | `Option`, `Result` and the Ruby exceptions the core can raise |
| succ.dfy | `Succ` | `String#succ` on alphanumeric strings: column letters and relationship ids |
| xml.rb → xml.dfy | `Xml` | `header`, `strip`, `escape_attr`, `escape_value`, plus an ST_Xstring reader (ECMA-376 Part 1, section 22.9.2.19) to read escapes back |
| interning.dfy | `Interning` | a Ruby Hash whose default block is `h[k] = h.size`: dense ids in first-seen order |
| shared_strings.dfy | `SharedStrings` | `SharedStringTable` |
| cell.dfy | `Cells` | `Cell`, option hashes, Ruby truthiness and `to_s` of option values |
| values.dfy | `Values` | the row values the encoders tell apart, and a `Runtime` record of the services left abstract |
| calendar.dfy | `Calendar` | proleptic Gregorian days, Julian day numbers, `Date.parse` on `yyyy-mm-dd` text |
| rows.dfy | `Rows` | `Row#to_xml` and `auto_format` |
| core_extension.dfy | `CoreExtension` | the `to_xslx_value` encoders |
| columns.dfy | `Columns` | `Columns#to_xml` and the width formula of ECMA-376 Part 1, section 18.3.1.13 |
| styles.dfy | `Styles` | `Font`, `Fill`, `Border`, `Xf` |
| stylesheet.dfy | `Stylesheets` | `Stylesheet`: its four interning tables, `style_id`, the memoised ids and `to_xml` |
| sink.dfy | `Sinks` | the sink as an event log of `AddFile(path)`, `Append(text)` and `Close`, and what each part holds |
| worksheet.dfy | `Worksheets` | `Worksheet`: header, row counter, footer |
| workbook.dfy | `Workbooks` | `Workbook`: sheet ids, `write_worksheet` and the parts `close` writes |
| io_hash.dfy | `HashSink` | `IO::Hash`, the offset-indexed recorder |
| io_stream.dfy | `StreamSink` | `IO::Stream`, the path-line framing sink |
| zip_buffer.dfy | `ZipBuffer` | the 64 KiB buffering of `ZipKitWriter` and `IO::ZipKit` against an abstract entry writer |

### How the model is shaped

- **Sinks.** Each sink is a function from the event log to what the sink holds. Each is
  related to `Sinks.Entries`, the list of (path, text) pairs a log means.
- **Workbook texts.** The workbook writes its fixed texts from a `Layout` record. `Ooxml` is
  the one workbook.rb uses, so the structural lemmas hold for any texts.
- **Abstract runtime services.** These are fields of `Values.Runtime`:
  - Float rendering (`Float#to_s`).
  - `DateTime.parse`.
  - The floating-point serials of `Time` and `DateTime`.
- **Dates.** Dates are exact: a `Date` is a valid Gregorian day. Its serial is an integer,
  rendered as `N.0`.

## Model

| member | source | states |
|---|---|---|
| Text.NatToStringRoundTrip | lib/xlsxtream/row.rb:28 | the decimal text interpolated for a row number or id reads back as that number |
| Text.IntegerRoundTrip | lib/xlsxtream/row.rb:69 | the decimal text of any Integer, sign included, is integer text, and `to_i` gives the Integer back |
| Text.AsciiDowncase | lib/xlsxtream/styles/font.rb:75 | `downcase` keeps the length, leaves no capital A-Z, turns each capital into its own small letter and keeps every other character; it changes a text exactly when the text has a capital |
| Text.Hex4 | lib/xlsxtream/xml.rb:27 | `'%04X'` of a code below 0x10000 is four upper-case hex digits whose value is the code |
| Succ.Succ | lib/xlsxtream/row.rb:32 | `next!` on an alphanumeric string gives an alphanumeric string of the same length, or one longer when the carry runs off the front |
| Succ.SuccSteps | lib/xlsxtream/row.rb:32 | `next!` either adds a character or adds exactly one to the string's value, read digit by digit in each character's radix |
| Succ.ColumnName | lib/xlsxtream/row.rb:31 | the letters of column n form a non-empty run of upper-case letters |
| Succ.ColumnNameRoundTrip | lib/xlsxtream/row.rb:31 | reading a column's letters back as a bijective base-26 number gives the column number |
| Succ.ColumnNameInjective | lib/xlsxtream/row.rb:31 | no two columns share their letters |
| Succ.ColumnSucc | lib/xlsxtream/row.rb:32 | `next!` on the letters of column n gives the letters of column n+1 (Z to AA, AZ to BA) |
| Succ.ColumnIsName | lib/xlsxtream/row.rb:27-32 | the k-th value (from 0) of a row, after starting at 'A' and k calls of `next!`, is in column k+1 |
| Succ.RelId | lib/xlsxtream/workbook.rb:98 | every id drawn from "rId0" with `next!` is an alphanumeric string never shorter than "rId0" |
| Succ.RelIdClimbs | lib/xlsxtream/workbook.rb:106-108 | each later draw is strictly greater in `next!` order |
| Succ.RelIdInjective | lib/xlsxtream/workbook.rb:182-186 | no two relationships drawn from one counter share an id |
| Succ.RelIdSmall | lib/xlsxtream/workbook.rb:98 | up to the ninth draw, draw i is "rId" followed by the digit i |
| Succ.RelIdTenth | lib/xlsxtream/workbook.rb:98 | the tenth draw is "rIe0", not "rId10" |
| Xml.EntityShape | lib/xlsxtream/xml.rb:4-9 | the four replacement entities contain no raw quote or angle bracket |
| Xml.EscapeAttrSafe | lib/xlsxtream/xml.rb:39-41 | `escape_attr` output has no raw `"`, `<` or `>`, and every `&` starts one of the four entities |
| Xml.EscapeAttrRoundTrip | lib/xlsxtream/xml.rb:39-41 | replacing the entities back gives the original string, for every string |
| Xml.EscapeAttrPlain | lib/xlsxtream/xml.rb:19 | a string without `& " < >` is left unchanged |
| Xml.EscapeAttrConcat | lib/xlsxtream/xml.rb:39-41 | escaping works character by character: escaping a+b is escaping a, then b |
| Xml.EscapeEntitiesSafe | lib/xlsxtream/xml.rb:45 | the first step of `escape_value` leaves no raw `<` or `>`, and every `&` starts an entity |
| Xml.EscapeEntitiesRoundTrip | lib/xlsxtream/xml.rb:45 | replacing the entities back gives the original string |
| Xml.EscapeEntitiesPlain | lib/xlsxtream/xml.rb:20 | a string without `& < >` is left unchanged, quotes included |
| Xml.EscapeEntitiesConcat | lib/xlsxtream/xml.rb:45 | the entity step works character by character |
| Xml.CharEscape | lib/xlsxtream/xml.rb:27 | a character outside XML 1.0's Char production becomes a 7-character `_xHHHH_` escape whose value is its code |
| Xml.EscapeInvalidChars | lib/xlsxtream/xml.rb:47 | after the last step every character is legal in XML 1.0 and is either from the input or part of an escape |
| Xml.EscapeInvalidCopies | lib/xlsxtream/xml.rb:22-24 | a string of legal characters, supplementary planes included, passes through unchanged |
| Xml.EscapeInvalidConcat | lib/xlsxtream/xml.rb:47 | the last step works character by character |
| Xml.EscapeUnderscoresChars | lib/xlsxtream/xml.rb:46 | the underscore step adds only escape characters (`_`, `x`, hex digits) |
| Xml.EscapeUnderscoresCopies | lib/xlsxtream/xml.rb:46 | a string without `_` is left unchanged by the underscore step |
| Xml.EscapeValueSafe | lib/xlsxtream/xml.rb:43-48 | `escape_value` as written emits only XML 1.0 characters and no raw `<` or `>` |
| Xml.EscapeValueOverlapCounterexample | lib/xlsxtream/xml.rb:46 | `"_x0041_x0042_"` is written so that an ST_Xstring reader reads `"_x0041B"` |
| Xml.EscapeValuePlaceholderCounterexample | lib/xlsxtream/xml.rb:47 | `"_xABCD\u0001"` is written so that a reader reads U+ABCD followed by `"x0001_"` |
| Xml.NoFalseEscape | lib/xlsxtream/xml.rb:12 | an underscore the corrected step leaves alone never starts an escape in the text written |
| Xml.EntitiesKeepNeed | lib/xlsxtream/xml.rb:45-46 | the entity step neither creates nor hides an underscore that needs escaping |
| Xml.EscapeUnderscoresFixedChars | lib/xlsxtream/xml.rb:46 | the corrected underscore step adds only escape characters (`_`, `x`, hex digits) |
| Xml.XstringRoundTrip | lib/xlsxtream/xml.rb:46-47 | an ST_Xstring reader reads the output of the corrected last two steps back as their input |
| Xml.UnescapeXstring | lib/xlsxtream/xml.rb:45-47 | replacing entities back undoes the entity step through the two ST_Xstring steps |
| Xml.EscapeValueFixedRoundTrip | lib/xlsxtream/xml.rb:43-48 | with the corrected underscore step, replacing entities and then reading escapes gives back every string |
| Xml.EscapeValueFixedSafe | lib/xlsxtream/xml.rb:43-48 | the corrected `escape_value` still emits only XML 1.0 characters and no raw `<` or `>` |
| Xml.EscapeValueReadsBack | lib/xlsxtream/xml.rb:43-48 | on text without `_`, `escape_value` as written agrees with the corrected one and reads back exactly |
| Xml.StripKeepsText | lib/xlsxtream/xml.rb:35-37 | `strip` deletes only whitespace: the other characters stay, in order |
| Xml.StripTidy | lib/xlsxtream/xml.rb:17 | after `strip` no whitespace follows a `>` or precedes a `<` |
| Xml.StripIdentity | lib/xlsxtream/xml.rb:35-37 | text with no whitespace next to a tag is left unchanged, so `strip` is idempotent |
| Interning.FindBy | lib/xlsxtream/styles/stylesheet.rb:25-28 | a lookup finds the first entry with an equal key, or the table's size when there is none |
| Interning.InternBy | lib/xlsxtream/styles/stylesheet.rb:28 | a key already stored gets its id with the table unchanged; a new key is appended and gets the old size |
| Interning.InternKeepsDistinct | lib/xlsxtream/styles/stylesheet.rb:28 | no key is ever stored twice, and a lookup grows the table by at most one |
| Interning.FindEntry | lib/xlsxtream/styles/stylesheet.rb:28 | ids are dense: the entry at position i has id i |
| Interning.FindStable | lib/xlsxtream/styles/stylesheet.rb:28 | an id, once handed out, never changes as the table grows |
| Interning.FindUnique | lib/xlsxtream/styles/stylesheet.rb:28 | a key equal to the entry at position k has id k |
| Interning.FoundAt | lib/xlsxtream/styles/stylesheet.rb:28 | asking again for a stored key returns its position and changes nothing |
| Interning.InternGrows | lib/xlsxtream/styles/stylesheet.rb:28 | a lookup keeps every earlier entry in place, and the id it returns is where the key now sits |
| SharedStrings.Empty | lib/xlsxtream/shared_string_table.rb:4-7 | a fresh table is empty, counts no reference and meets the table invariant; the first string looked up in it gets id 0 and is its only string |
| SharedStrings.Lookup | lib/xlsxtream/shared_string_table.rb:9-12 | every lookup counts one reference; a seen string keeps its id and the size, and an unseen one gets id = size and grows the table by one |
| SharedStrings.LookupValid | lib/xlsxtream/shared_string_table.rb:6 | strings stay distinct, references stay at least the size, and a seen string's id is its first-seen position |
| SharedStrings.DedupElements | lib/xlsxtream/shared_string_table.rb:6 | the first-seen order of a list holds exactly the strings of the list |
| SharedStrings.LookupAllFromEmpty | lib/xlsxtream/shared_string_table.rb:3-17 | looking up a list from a fresh table stores its distinct strings in first-seen order and counts one reference per lookup |
| Calendar.DaysInMonth | lib/xlsxtream/row.rb:71 | a Gregorian month has 28 to 31 days |
| Calendar.JulianDayFromEpoch | lib/xlsxtream/core_extension.rb:48 | the Julian day number of a date is its day count from 1970-01-01 plus 2440588 |
| Calendar.SerialsAgree | lib/xlsxtream/core_extension.rb:48 | for every date, `jd - 2415019` equals the day count from 1970-01-01 plus 25569, the serial of row.rb:86 |
| Calendar.SerialOf1900 | lib/xlsxtream/core_extension.rb:48 | 1900-01-01 is Julian day 2415021 and has serial 2 both ways |
| Calendar.NextDaySerial | lib/xlsxtream/row.rb:86 | the next day in a month has the next serial |
| Calendar.ParseIsoDateReadsBack | lib/xlsxtream/row.rb:70-71 | a text `Date.parse` accepts is the `iso8601` text of the date it gives, so distinct accepted texts name distinct dates |
| Calendar.DateFieldsPrintBack | lib/xlsxtream/row.rb:12 | the fields of a DATE_PATTERN text print back, zero-padded, as the text itself |
| Calendar.FixedDigits | lib/xlsxtream/row.rb:12 | a run of digits, leading zeros included, is the zero-padded rendering of its value |
| Calendar.DateTextRoundTrip | lib/xlsxtream/row.rb:12 | a date of years 0 to 9999 written as `yyyy-mm-dd` matches DATE_PATTERN and parses back to itself |
| Calendar.NoLeapDay1900 | lib/xlsxtream/row.rb:70-71 | "1900-02-29" matches DATE_PATTERN but raises, since 1900 is not a leap year |
| Values.ToS | lib/xlsxtream/row.rb:46 | `to_s` gives a String itself, "" for nil, "true" or "false" for the booleans and any other object's own text; it is empty exactly for nil, "" and an object whose text is "" |
| Values.WholeFloatText | lib/xlsxtream/core_extension.rb:48 | `to_f` of a whole day count is printed as the count's decimal text, which reads back as the count, followed by ".0" |
| CoreExtension.StringValue | lib/xlsxtream/core_extension.rb:59-79 | an empty String gives no cell and leaves the table alone; a non-empty one raises exactly under auto-format, since `Row.auto_format` is not a class method |
| CoreExtension.ToXslxValue | lib/xlsxtream/core_extension.rb:1-79 | only a String under auto-format can raise; every Numeric becomes a `t="n"` cell holding its text |
| CoreExtension.OnlyStringsFail | lib/xlsxtream/core_extension.rb:63-64 | the encoder raises exactly for a non-empty String with auto-format on |
| CoreExtension.AgreesWithRow | lib/xlsxtream/core_extension.rb:72-76 | with auto-format off, every value but booleans, Times and DateTimes gets the same markup and table as in row.rb; a Date does so through equal serials, which in Ruby holds only from 15 October 1582 |
| CoreExtension.BooleansDiffer | lib/xlsxtream/core_extension.rb:13-23 | a boolean's cell differs from row.rb's, which writes it as the inline text "true" or "false" |
| CoreExtension.DateValue | lib/xlsxtream/core_extension.rb:47-50 | the Date 1900-01-01 gives an `s="1"` cell with value 2.0 |
| Rows.AutoFormat | lib/xlsxtream/row.rb:66-77 | auto-format can only fail in `Date.parse` or `DateTime.parse`, and text it keeps as a String is unchanged |
| Rows.PatternsExclusive | lib/xlsxtream/row.rb:10-14 | no text matches two of NUMBER_PATTERN, DATE_PATTERN and TIME_PATTERN |
| Rows.DashAtFour | lib/xlsxtream/row.rb:10-12 | four digits followed by '-' cannot be a number, so dates never reach the number branch |
| Rows.AutoFormatInteger | lib/xlsxtream/row.rb:68-69 | the decimal text of any Integer becomes that Integer |
| Rows.AutoFormatDate | lib/xlsxtream/row.rb:70-71 | the `yyyy-mm-dd` text of any date becomes that Date |
| Rows.AutoFormatPlain | lib/xlsxtream/row.rb:74-75 | text that matches no pattern stays the same String |
| Rows.HourOnlyIsText | lib/xlsxtream/row.rb:14 | "1900-01-01T12" matches no pattern, so it stays text |
| Rows.TextCell | lib/xlsxtream/row.rb:48-55 | empty text gives no cell; without a table the cell is inline, its text through `escape_value` as written; with one it is `t="s"` with the id under which the updated table holds the string |
| Rows.EncodeValue | lib/xlsxtream/row.rb:38-57 | numbers, dates and times never touch the shared string table; every Numeric becomes a `t="n"` cell holding its text |
| Rows.Shown | lib/xlsxtream/row.rb:34-36 | auto-format only replaces Strings, and only when it is on |
| Rows.EncodeCell | lib/xlsxtream/row.rb:34-57 | a cell fails exactly when auto-formatting its value fails |
| Rows.Cells | lib/xlsxtream/row.rb:30-58 | a row written with a table leaves a table, and one written inline leaves none |
| Rows.RowXml | lib/xlsxtream/row.rb:26-61 | a row is `<row r="N">`, its cells, then `</row>` |
| Rows.CellsInline | lib/xlsxtream/row.rb:30-58 | without a table or auto-format, the cells are the concatenation of one fragment per value, value k in column k+1, text escaped by `escape_value` as written |
| Rows.RowInline | lib/xlsxtream/row.rb:26-61 | without a table or auto-format, a row is its open tag, the per-value fragments (text escaped by `escape_value` as written) and `</row>` |
| Rows.CellsFail | lib/xlsxtream/row.rb:30-58 | a row raises exactly when some value's auto-format raises |
| Rows.CellsOkStep | lib/xlsxtream/row.rb:30-58 | the last cell is encoded against the table as the cells before it left it |
| Rows.EncodeValueTable | lib/xlsxtream/row.rb:48-52 | only a non-empty text is looked up in the table |
| Rows.CellsSharedStrings | lib/xlsxtream/row.rb:51-52 | after a row, the table is the old one with the row's non-empty texts looked up in order |
| Rows.DateCell | lib/xlsxtream/row.rb:43-44 | 1900-01-01 in A1 gives `<c r="A1" s="1"><v>2.0</v></c>` |
| Rows.DateRow | lib/xlsxtream/row.rb:26-61 | the row of that one date is `<row r="1">` around that cell |
| Rows.NilRow | lib/xlsxtream/row.rb:48 | nil writes no cell: `<row r="1"></row>` |
| Columns.WidthNumerator | lib/xlsxtream/columns.rb:44 | the truncated width, as a numerator over 256, lies strictly between c and c+1 characters |
| Columns.WidthNumeratorClosed | lib/xlsxtream/columns.rb:44 | truncation toward zero gives 256c+182 for c >= 0 and 256c+183 below |
| Columns.WidthTextNonNegative | lib/xlsxtream/columns.rb:44 | for c >= 0 the width is printed "c.7109375" |
| Columns.WidthTextNegative | lib/xlsxtream/columns.rb:44 | for c < 0 the width is printed "-(-c-1).28515625" |
| Columns.WidthTextExact | lib/xlsxtream/columns.rb:44 | the printed decimal denotes exactly the numerator over 256 |
| Columns.WidthOfDigits | lib/xlsxtream/columns.rb:44 | the width text is c's digits followed by ".7109375" |
| Columns.WidthOfEight | lib/xlsxtream/columns.rb:44 | width_chars 8 gives "8.7109375" |
| Columns.WidthOfFourteen | lib/xlsxtream/columns.rb:44 | width_chars 14 gives "14.7109375" |
| Columns.ColXml | lib/xlsxtream/columns.rb:30-31 | an entry with neither width gives a bare `<col min max/>` |
| Columns.CustomWidthIffWidth | lib/xlsxtream/columns.rb:30-46 | an entry is bare exactly when it has neither width, so customWidth appears exactly with a width |
| Columns.PixelsOverride | lib/xlsxtream/columns.rb:44-46 | width_pixels is written verbatim and overrides width_chars |
| Columns.ColEntries | lib/xlsxtream/columns.rb:26 | one entry per column option |
| Columns.ColsAppend | lib/xlsxtream/columns.rb:23-51 | appending a column option adds its entry, numbered by its position, just before `</cols>` |
| Styles.Keyword | lib/xlsxtream/styles/font.rb:23-30 | a keyword not given takes its default |
| Styles.FamilyIndex | lib/xlsxtream/styles/font.rb:6-13 | a name has an id exactly when it is one of the six, and the id is its position |
| Styles.ResolveFamily | lib/xlsxtream/styles/font.rb:74-78 | the id is the position of `to_s.downcase` among the six names; any other value raises an Error naming it |
| Styles.FamilyRoundTrip | lib/xlsxtream/styles/font.rb:74-75 | each of the six names, as a String or a Symbol, resolves to its own id |
| Styles.FamilyIgnoresCase | lib/xlsxtream/styles/font.rb:75 | a family and its down-cased form resolve alike |
| Styles.DowncaseTwice | lib/xlsxtream/styles/font.rb:75 | down-casing a down-cased text changes nothing |
| Styles.FamilyExamples | lib/xlsxtream/styles/font.rb:6-13 | nil and "" resolve to 0, and "ROMAN" and :roman to 1 |
| Styles.ResolveUnderline | lib/xlsxtream/styles/font.rb:80-83 | a supported kind is kept, true becomes "single", anything else is unset; the result is always supported |
| Styles.UnderlineIdempotent | lib/xlsxtream/styles/font.rb:80-83 | resolving an underline that was already resolved changes nothing |
| Styles.NewFont | lib/xlsxtream/styles/font.rb:23-39 | unknown keywords raise; otherwise construction succeeds exactly when the family resolves, and each field is its keyword or default |
| Styles.NewFontDefaults | lib/xlsxtream/styles/font.rb:23-30 | `Font.new` is size 12, Calibri, family id 2, with bold, italic, strike, underline and color unset |
| Styles.FontTagsHead | lib/xlsxtream/styles/font.rb:60-65 | sz, name and family always come first, in that order, and at most eight tags are written |
| Styles.FontTagsOrdered | lib/xlsxtream/styles/font.rb:65-71 | the optional tags follow in the order b, i, u, strike, color |
| Styles.FontTagsPresence | lib/xlsxtream/styles/font.rb:66-70 | each optional tag is written exactly when its option is set, and color carries the given rgb |
| Styles.DefaultFontTexts | lib/xlsxtream/styles/font.rb:60-72 | the default font writes only its size, name and family tags |
| Styles.DefaultFontXml | lib/xlsxtream/styles/font.rb:41-43 | the default font is `<font><sz val="12"/><name val="Calibri"/><family val="2"/></font>` |
| Styles.NewFill | lib/xlsxtream/styles/fill.rb:32-35 | unknown keywords raise; an explicit pattern is kept unchecked, else "solid" with a color and "none" without |
| Styles.FillsWithoutColor | lib/xlsxtream/styles/fill.rb:56-64 | without a color every fill is `<fill></fill>`, whatever its pattern |
| Styles.ColorOnlyFill | lib/xlsxtream/styles/fill.rb:56-64 | a color alone gives a solid fill whose pattern tag carries the color |
| Styles.Supported | lib/xlsxtream/styles/xf.rb:46-48 | filtering never adds attributes |
| Styles.SupportedPairs | lib/xlsxtream/styles/xf.rb:46-48 | filtering keeps exactly the attributes whose key is one of the seven supported fields |
| Styles.SupportedUnique | lib/xlsxtream/styles/xf.rb:46-48 | filtering keeps keys distinct |
| Styles.NewXf | lib/xlsxtream/styles/xf.rb:21-23 | an xf holds exactly the supported attributes it was given |
| Styles.AttrMapPairs | lib/xlsxtream/styles/xf.rb:40-42 | an xf's state maps each key to exactly the value given for it |
| Styles.XfOrderFree | lib/xlsxtream/styles/xf.rb:31-42 | two xfs with the same attributes in any order are equal |
| Stylesheets.NumFmtOf | lib/xlsxtream/styles/stylesheet.rb:36-40 | Dates and DateTimes get 164, since a DateTime is a Date; Times get 165 |
| Stylesheets.OptionsAt | lib/xlsxtream/styles/stylesheet.rb:43-44 | `style[key] \|\| {}` is empty when the key is absent, and raises exactly for a truthy non-Hash |
| Stylesheets.StyleId | lib/xlsxtream/styles/stylesheet.rb:33-48 | `style_id` raises exactly when the cell's font or fill cannot be built |
| Stylesheets.NewStylesheetValid | lib/xlsxtream/styles/stylesheet.rb:22-31 | construction succeeds exactly when the global font and fill build; it leaves one border, fill and font and the default, date and date-time xfs |
| Stylesheets.MemoisedIds | lib/xlsxtream/styles/stylesheet.rb:71-98 | the memoised ids are 0, 1 and 2, and asking for them changes no table |
| Stylesheets.ExtendsValid | lib/xlsxtream/styles/stylesheet.rb:25-28 | growing the tables keeps every xf's font, fill and border ids in range |
| Stylesheets.XfStep | lib/xlsxtream/styles/stylesheet.rb:47 | interning an xf either finds it with the tables unchanged, or appends a new one at id = old size |
| Stylesheets.StyleIdValid | lib/xlsxtream/styles/stylesheet.rb:33-48 | the invariant survives; no entry moves; the xf has the content's format, border 0, the font and fill ids, and applyFill exactly when the fill is not the default |
| Stylesheets.StyleIdNotDateStyle | lib/xlsxtream/styles/stylesheet.rb:80-97 | `style_id` never returns the date styles 1 and 2, which alone set applyNumberFormat |
| Stylesheets.StyleIdRepeat | lib/xlsxtream/styles/stylesheet.rb:47 | asking again for a cell's style returns the same id and changes nothing |
| Stylesheets.StyleIdDefault | lib/xlsxtream/styles/stylesheet.rb:71-78 | a cell with the default font and fill and no number format gets the default style 0 |
| Stylesheets.SameAsGlobal | lib/xlsxtream/styles/stylesheet.rb:107-117 | a cell styled as the global options resolves to `default_style_id` with no new xf |
| Stylesheets.GlobalOptionsCell | lib/xlsxtream/styles/stylesheet.rb:131-136 | a cell given the workbook's own options gets style 0, and the xf table stays at 3 |
| Stylesheets.UnsupportedKeysOnly | lib/xlsxtream/styles/stylesheet.rb:43-44 | without :font and :fill keys a cell gets style 0, whatever else its style holds |
| Stylesheets.UnsupportedOptionsStyled | lib/xlsxtream/cell.rb:12-14 | a cell styled only under unsupported keys is `styled?`, yet gets style 0 |
| Stylesheets.NewStyleGetsNextId | lib/xlsxtream/styles/stylesheet.rb:47 | a red fill with a bold italic font gets the next id, 3, and gets 3 again on a second request |
| Stylesheets.SectionAppend | lib/xlsxtream/styles/stylesheet.rb:57-61 | each section's count is its number of entries, and the entries come in id order |
| Stylesheets.StylesheetXml | lib/xlsxtream/styles/stylesheet.rb:50-69 | `to_xml` fails exactly when there is no xf, since `nil.to_xml` raises |
| Stylesheets.StylesheetXmlText | lib/xlsxtream/styles/stylesheet.rb:50-69 | styles.xml has the declaration and the template's non-space text in order, and no whitespace next to a tag |
| Stylesheets.StylesheetXmlVerbatim | lib/xlsxtream/styles/stylesheet.rb:50-69 | when no value puts whitespace next to a tag, styles.xml is the declaration plus the template verbatim |
| Stylesheets.ValidHasXml | lib/xlsxtream/styles/stylesheet.rb:60 | a constructed stylesheet always has a first xf for cellStyleXfs |
| Sinks.Extend | lib/xlsxtream/io/hash.rb:10-12 | `<<` adds to the text of the current part only |
| Sinks.ExtendTwice | lib/xlsxtream/io/hash.rb:10-12 | two appends are one append of their concatenation |
| Sinks.EntriesSnoc | lib/xlsxtream/io/hash.rb:10-22 | `add_file` opens a new empty part, `<<` extends the current one, and `close` changes no part |
| Sinks.Paths | lib/xlsxtream/io/hash.rb:14-18 | the paths are the parts' paths, in `add_file` order |
| Sinks.EntriesGrow | lib/xlsxtream/io/hash.rb:10-22 | later events never change a part that is already finished |
| Sinks.EntriesAppends | lib/xlsxtream/io/hash.rb:10-12 | several writes add their concatenation to the current part |
| Sinks.OpenThenAppends | lib/xlsxtream/io/hash.rb:14-18 | opening a part and writing texts leaves it last, holding their concatenation |
| Sinks.PartsPaths | lib/xlsxtream/workbook.rb:73-79 | writing parts one after another opens exactly their paths, in order |
| Sinks.PartsEntries | lib/xlsxtream/workbook.rb:73-79 | writing parts one after another leaves each holding the concatenation of its texts |
| Worksheets.HeaderText | lib/xlsxtream/worksheet.rb:27-41 | the header is the declaration, `<worksheet>`, the cols block exactly when columns are given, then `<sheetData>` |
| Worksheets.NewWorksheetMeaning | lib/xlsxtream/worksheet.rb:7-13 | construction adds the joined header to the sink's current part and opens no new part |
| Worksheets.AddRowMeaning | lib/xlsxtream/worksheet.rb:15-18 | `<<` adds the row's markup to the current part and opens no part; with Row#to_xml's promise kept, that markup is a `<row>` under the current number |
| Worksheets.AddRow | lib/xlsxtream/worksheet.rb:15-19 | `<<` fails exactly when the row does; otherwise it appends one text, adds one to the counter and keeps the options |
| Worksheets.CloseWorksheetMeaning | lib/xlsxtream/worksheet.rb:21-48 | `close` adds the footer to the current part and opens no part |
| Worksheets.EncoderRows | lib/xlsxtream/worksheet.rb:16 | every row `<<` writes is a `<row>` element with the number it was given |
| Worksheets.RowTextsWith | lib/xlsxtream/worksheet.rb:15-18 | a run of rows written in order gives one text per row |
| Worksheets.AreRowsIndexed | lib/xlsxtream/worksheet.rb:17 | in a run of rows from n, text i is row n+i |
| Worksheets.RowTextsWithRows | lib/xlsxtream/worksheet.rb:15-18 | every text of a run is a row element, and the table's presence is kept |
| Worksheets.RowTextsAreRows | lib/xlsxtream/worksheet.rb:15-18 | row i of a run (from 0) is written as a `<row>` numbered n+i |
| Worksheets.AddRowsWithWrites | lib/xlsxtream/worksheet.rb:15-18 | adding rows writes exactly their texts, one `<<` each, and advances the counter by the number of rows |
| Worksheets.AddRowsWrites | lib/xlsxtream/worksheet.rb:15-18 | the same for row.rb's encoding |
| Worksheets.AddRowsKeepsTable | lib/xlsxtream/worksheet.rb:16 | rows written with a table leave a table, and rows written inline leave none |
| Worksheets.WriteRows | lib/xlsxtream/workbook.rb:66 | a block that calls `<<` for each row adds them all, or stops at the first that raises |
| Worksheets.AddRowsFailed | lib/xlsxtream/worksheet.rb:15-18 | once a row raises, no later row is added |
| Worksheets.WorksheetPart | lib/xlsxtream/worksheet.rb:7-48 | a worksheet with n rows, once closed, holds the header, rows 1 to n and the footer, and nothing else |
| Worksheets.EmptyWorksheet | lib/xlsxtream/worksheet.rb:27-48 | an empty worksheet is the declaration, then `<worksheet><sheetData></sheetData></worksheet>` |
| Workbooks.NewWorkbook | lib/xlsxtream/workbook.rb:38-50 | a new workbook has no sheets and an empty log, and both it and its empty table meet their invariants |
| Workbooks.Register | lib/xlsxtream/workbook.rb:49 | a name seen before keeps its id and registers nothing; a new name gets id = count + 1 |
| Workbooks.RegisterIds | lib/xlsxtream/workbook.rb:49 | the id of the k-th name (from 0) is k+1 |
| Workbooks.WriteWorksheet | lib/xlsxtream/workbook.rb:52-70 | the workbook's options never change, and the table changes only under use_shared_strings |
| Workbooks.WorksheetWritten | lib/xlsxtream/workbook.rb:52-70 | writing succeeds exactly when its rows encode; the sheet goes to `sheet<id>.xml` holding its header, rows and footer |
| Workbooks.WriteKeepsValid | lib/xlsxtream/workbook.rb:62 | writing worksheets never gives a name two ids |
| Workbooks.DefaultNameCollision | lib/xlsxtream/workbook.rb:61-62 | after a sheet named "Sheet2", an unnamed sheet is also "Sheet2" and reuses id 1 |
| Workbooks.NameOptionIgnored | lib/xlsxtream/workbook.rb:53-56 | a Hash given alone is the options, so its :name is ignored; with options beside it, the Hash is the name |
| Workbooks.NamedPrefix | lib/xlsxtream/workbook.rb:106-108 | the sheets before the first Hash name are all String names |
| Workbooks.SheetLines | lib/xlsxtream/workbook.rb:106-108 | one `<sheet>` entry per name up to the first Hash name, the i-th with id i+1 and the (i+1)-th relationship id |
| Workbooks.SheetNameReadsBack | lib/xlsxtream/workbook.rb:107 | each sheet name's attribute holds no raw quote and reads back as the name |
| Workbooks.FontOptions | lib/xlsxtream/workbook.rb:116 | `fetch(:font, {})` is empty when absent, and raises for a non-Hash |
| Workbooks.Font | lib/xlsxtream/workbook.rb:116-118 | the size and name are `fetch(:size, 12).to_s` and `fetch(:name, 'Calibri').to_s` |
| Workbooks.FontFamily | lib/xlsxtream/workbook.rb:119-122 | the family id is the down-cased family's position among the six names; any other family raises an Error naming it |
| Workbooks.StringItems | lib/xlsxtream/workbook.rb:171-173 | one `<si>` item per string, in id order; every item's text is well-formed XML character data, and one for a string without `_` reads back as that string |
| Workbooks.StringItemMeaning | lib/xlsxtream/workbook.rb:172 | an `<si>` item's text holds only XML 1.0 characters and no raw `<` or `>`, and reads back as the string when it has no `_` |
| Workbooks.SstReadsBack | lib/xlsxtream/workbook.rb:167-175 | sharedStrings.xml holds the string with id i as item i, after the declaration and the `<sst>` tag; its text is well-formed and, when the string has no `_`, reads back as that string |
| Workbooks.WorkbookRels | lib/xlsxtream/workbook.rb:177-188 | the relationships are one per sheet, then styles, then shared strings when the table is not empty; the i-th id is the i-th draw |
| Workbooks.RelIdsDistinct | lib/xlsxtream/workbook.rb:178-186 | no two relationships of workbook.xml.rels share an id |
| Workbooks.Overrides | lib/xlsxtream/workbook.rb:190-205 | the overrides are workbook, styles, shared strings exactly when the table is not empty, then one per sheet id |
| Workbooks.SheetReferences | lib/xlsxtream/workbook.rb:106-108 | sheet i's entry in workbook.xml names the relationship that targets `sheet<i+1>.xml`, and that part has a content type |
| Workbooks.SheetTargetPath | lib/xlsxtream/workbook.rb:183 | a sheet relationship's target, resolved against `xl/`, is the path the sheet was written to |
| Workbooks.SheetOverride | lib/xlsxtream/workbook.rb:201-203 | every sheet id has its content type override |
| Workbooks.CloseWorkbook | lib/xlsxtream/workbook.rb:73-83 | `close` succeeds exactly when every name is a String and the font resolves, and then it ends by closing the sink |
| Workbooks.CloseOrder | lib/xlsxtream/workbook.rb:73-79 | a successful close opens workbook.xml, styles.xml, sharedStrings.xml when not empty, the two relationship parts and the content types, in that order |
| Workbooks.CloseEntries | lib/xlsxtream/workbook.rb:73-83 | after a successful close every package part holds exactly the texts written into it |
| Workbooks.FontErrorAfterWorkbook | lib/xlsxtream/workbook.rb:115-124 | a bad font family raises after workbook.xml is complete and before styles.xml is opened |
| Workbooks.HashNameFails | lib/xlsxtream/workbook.rb:106-108 | a Hash name stops workbook.xml at its entry, with the entries before it written |
| Workbooks.DefaultFont | lib/xlsxtream/workbook.rb:116-119 | without a :font option the font is Calibri, size 12, family Swiss (id 2) |
| Workbooks.ScriptFamily | lib/xlsxtream/workbook.rb:119-120 | the family "Script" is found regardless of case: id 4 |
| Workbooks.StylesKeepFont | lib/xlsxtream/workbook.rb:126-136 | stripping the styles template removes layout only; the escaped size and name and the family id stay, in order |
| Workbooks.EmptyWorkbookRels | lib/xlsxtream/workbook.rb:185 | a workbook without sheets or strings relates only its styles, as rId1 |
| Workbooks.UnnamedSheet | lib/xlsxtream/workbook.rb:61-63 | an unnamed sheet gets the next id and the default name, and is written to `sheet<id>.xml` |
| Workbooks.FirstUnnamed | lib/xlsxtream/workbook.rb:61-63 | the first unnamed sheet is "Sheet1", written to sheet1.xml |
| Workbooks.SecondUnnamed | lib/xlsxtream/workbook.rb:61-63 | after "Sheet1", an unnamed sheet is "Sheet2", written to sheet2.xml |
| Workbooks.TwoUnnamedSheets | lib/xlsxtream/workbook.rb:61-63 | two unnamed sheets of a new workbook are Sheet1 and Sheet2, in sheet1.xml and sheet2.xml |
| HashSink.CloseHash | lib/xlsxtream/io/hash.rb:20-22 | `close` records the current offset as the current part's end, and does nothing before any `add_file` |
| HashSink.AddFileHash | lib/xlsxtream/io/hash.rb:14-18 | `add_file(p)` closes the current part, then starts p at the current offset; a re-added path keeps its key position |
| HashSink.AppendHash | lib/xlsxtream/io/hash.rb:10-12 | `<<` adds the data to the stream unchanged and touches no offset |
| HashSink.Fetch | lib/xlsxtream/io/hash.rb:24-32 | `fetch` raises KeyError for a path never added, and NoMethodError for a part never closed; otherwise it returns the part's span |
| HashSink.Lookup | lib/xlsxtream/io/hash.rb:34-38 | `[]` is nil for a path never added, and agrees with `fetch` otherwise |
| HashSink.FetchAll | lib/xlsxtream/io/hash.rb:40-42 | `to_h` pairs every key with its `fetch`, in key order, and succeeds when every fetch does |
| HashSink.CloseFinishes | lib/xlsxtream/io/hash.rb:20-22 | closing finishes the open part, so every path then has a start and an end cutting out the text of its last part |
| HashSink.RunTracks | lib/xlsxtream/io/hash.rb:10-22 | for every unclosed well-formed log, re-added paths included, the keys are the paths in first-add order and each path's offsets cut out the text of its last part |
| HashSink.HashRecordsEntries | lib/xlsxtream/io/hash.rb:40-42 | after any closed well-formed log, `to_h` gives one entry per path, in first-add order, with the text of the last part written under it; with pairwise different paths, every part as written |
| HashSink.ClosedFetches | lib/xlsxtream/io/hash.rb:40-42 | once the open part is closed, `to_h` gives the Hash the tracked parts collapse to |
| HashSink.FinishedFetch | lib/xlsxtream/io/hash.rb:24-32 | `fetch` of a finished part gives its text |
| HashSink.MissingPath | lib/xlsxtream/io/hash.rb:34-38 | `fetch` of a path never added raises, and `[]` turns just that error into nil |
| HashSink.ReAddKeepsOrder | lib/xlsxtream/io/hash.rb:17 | adding a path again restarts it at the current offset but keeps its place in `to_h` |
| HashSink.CollapseDistinct | lib/xlsxtream/io/hash.rb:17 | when no path is added twice, nothing is overwritten: the Hash holds every part as written |
| HashSink.KeysDistinct | lib/xlsxtream/io/hash.rb:17 | when no path is added twice, the key order is the order of the parts, and each path's last text is its only one |
| HashSink.AddFileTracks | lib/xlsxtream/io/hash.rb:14-18 | `add_file` finishes the open part and starts the next, a new path at the end of the keys, a re-added one in its old place |
| HashSink.AppendTracks | lib/xlsxtream/io/hash.rb:10-12 | `<<` adds to the open part and leaves every finished part's text as it was |
| HashSink.ReAddExample | lib/xlsxtream/io/hash.rb:14-18 | for any two different paths a and b, writing a, b, then a again, `to_h` keeps a first with the text of its second part and b second with its only text |
| StreamSink.CloseRenders | lib/xlsxtream/io/stream.rb:19-21 | `close` ends the open part's frame, so the stream is then every part framed |
| StreamSink.AddFileTracks | lib/xlsxtream/io/stream.rb:13-17 | `add_file` ends the open part's frame and starts a new part with its path line |
| StreamSink.AppendTracks | lib/xlsxtream/io/stream.rb:9-11 | `<<` adds its data to the open part verbatim |
| StreamSink.RunOpen | lib/xlsxtream/io/stream.rb:9-21 | an unclosed log writes each finished part framed, then the open part's path line and text |
| StreamSink.StreamRendersEntries | lib/xlsxtream/io/stream.rb:9-21 | a closed log writes every part as its path, a newline, its text and a newline, and nothing else |
| StreamSink.EmptyPart | lib/xlsxtream/io/stream.rb:13-17 | an empty part still takes two lines: its path and an empty line |
| StreamSink.CloseAgain | lib/xlsxtream/io/stream.rb:19-21 | each further `close` writes one more newline once a part was started, and nothing before |
| ZipBuffer.NewWriter | lib/xlsxtream/zip_kit_writer.rb:36-41 | a new writer keeps the close list it is given, has closed nothing and is in step with a log that wrote nothing |
| ZipBuffer.FlushBuffer | lib/xlsxtream/zip_kit_writer.rb:61-64 | the whole buffer reaches the current entry and the buffer is empty; without an entry writer `nil << buffer` raises |
| ZipBuffer.Push | lib/xlsxtream/zip_kit_writer.rb:43-47 | `<<` hands the buffer over exactly when it reaches 65536 characters, so it is always below that afterwards |
| ZipBuffer.FlushFile | lib/xlsxtream/zip_kit_writer.rb:66-70 | with an entry writer, what is buffered reaches the current entry, then the entry is closed, and the buffer is empty; without one nothing happens |
| ZipBuffer.AddFileZip | lib/xlsxtream/zip_kit_writer.rb:49-52 | `add_file` completes the current entry with the buffer, then opens an empty entry for the path; before any entry the buffer is kept for the new one |
| ZipBuffer.CloseZip | lib/xlsxtream/zip_kit_writer.rb:54-57 | `close` completes the current entry with the buffer, then closes each object of the close list, in order |
| ZipBuffer.ZipKitWriter | lib/xlsxtream/zip_kit_writer.rb:36 | the default close list is empty, so `new(streamer)` is the writer `with_output_to` makes for a caller's streamer, in step with an empty log |
| ZipBuffer.IoZipKit | lib/xlsxtream/io/zip_tricks.rb:9-29 | `IO::ZipKit.new(io)` behaves as the writer `with_output_to` makes for an IO, which closes the streamer alone |
| ZipBuffer.IoZipKitClosesStreamer | lib/xlsxtream/io/zip_tricks.rb:26-29 | whatever the calls, `IO::ZipKit` closes its streamer once per `close` and nothing else |
| ZipBuffer.WithOutputTo | lib/xlsxtream/zip_kit_writer.rb:8-21 | an existing writer comes back unchanged; any other output gets a fresh writer that closes the streamer unless the caller gave it, and closes a file exactly when it opened one |
| ZipBuffer.FlushFileDelivers | lib/xlsxtream/zip_kit_writer.rb:66-70 | finishing the entry moves the buffer into it, so the streamer holds every part in full |
| ZipBuffer.AddFileKeeps | lib/xlsxtream/zip_kit_writer.rb:49-52 | after `add_file` the streamer's parts and the buffer together are the parts of the log, plus a new empty one |
| ZipBuffer.PushKeeps | lib/xlsxtream/zip_kit_writer.rb:43-47 | with an entry open, `<<` never raises and the data reaches the current entry, in the buffer or handed over |
| ZipBuffer.RunTracks | lib/xlsxtream/zip_kit_writer.rb:43-70 | an unclosed well-formed log runs without raising, and the chunks handed over plus the buffer are the log's parts |
| ZipBuffer.ZipDeliversEntries | lib/xlsxtream/zip_kit_writer.rb:43-70 | after a closed log, each entry holds exactly the text appended while it was current, the buffer is empty and the close list was closed once |
| ZipBuffer.PushChunks | lib/xlsxtream/zip_kit_writer.rb:45 | every chunk `<<` hands over holds at least 65536 characters |
| ZipBuffer.CallerStreamerNotClosed | lib/xlsxtream/zip_kit_writer.rb:11-14 | a writer around the caller's streamer closes nothing of its own |
| ZipBuffer.CloseListClosed | lib/xlsxtream/zip_kit_writer.rb:54-57 | whatever the calls, the close list is closed once per `close`, and nothing else is closed |
| ZipBuffer.CloseAgain | lib/xlsxtream/zip_kit_writer.rb:66-70 | a second `close` closes the entry writer again, since `@wf` is never cleared, and closes the close list again |
| ZipBuffer.LeadingTextJoinsFirstEntry | lib/xlsxtream/zip_kit_writer.rb:43-52 | text below the buffer size written before any `add_file` does not raise, and ends up in the first entry although it belongs to no part |

## Left out

- Float rendering: `Float#to_s` of numbers is an abstract function in `Values.Runtime`, and so
  are the serials of Time and DateTime values (row.rb:80-87, core_extension.rb:25-43). Only
  whole-day Date serials are exact, printed as `N.0`. The non-MRI Date branch
  (core_extension.rb:52-55) is not modelled.
- `DateTime.parse` is an abstract predicate in `Values.Runtime`. `Date.parse` is modelled only
  on text that matches DATE_PATTERN, which is the only text row.rb hands it.
- Calendar.ParseIsoDate: every date is proleptic Gregorian. Ruby's `Date` uses the Julian
  calendar before 15 October 1582 by default, so it also accepts "1500-02-29" and rejects
  4 to 14 October 1582. Both differences are outside what the model states.
- Calendar.SerialsAgree: in Ruby the two serials agree only from 15 October 1582. Before that
  date, `jd` counts Julian-calendar days (core_extension.rb:48), while row.rb:81-86 reads the
  same fields as a proleptic Gregorian `Time`.
- CoreExtension.AgreesWithRow: its Date case rests on Calendar.SerialsAgree, so for a Date
  before 15 October 1582 Ruby's two encoders write different serials, and the agreement
  holds only in the model's proleptic Gregorian calendar.
- The three regular expressions of row.rb are written out as character predicates. No regex
  engine is modelled.
- Encoding transcoding (row.rb:49, core_extension.rb:66-70): strings are sequences of Unicode
  scalar values, taken to be UTF-8 already.
- HashSink.Fetch: offsets count characters where `@stream.tell` counts bytes. The two agree
  for the texts the sinks hold, since every part's span is taken from the same stream. The
  restored stream position (io/hash.rb:25, 30) is not modelled, since the model's stream has
  no position.
- ZipBuffer.Push: the 65536 limit counts characters, like `String#size`. Multi-byte text
  therefore reaches it later than a byte count would.
- Text.AsciiDowncase: lowers only the ASCII letters, where Ruby's `downcase` folds all of
  Unicode. The six family names are ASCII, so only the error message of an unknown family
  can differ.
- `<<` returning the writer itself (zip_kit_writer.rb:46, io/zip_tricks.rb:18) is not modelled,
  since the model's functions return the new state instead.
- File and IO plumbing is not modelled:
  - choosing and opening the output in `Workbook#initialize` (workbook.rb:38-47);
  - the `Workbook.open` block wrapper with its `ensure` (workbook.rb:23-34);
  - `@file.close` (workbook.rb:81).
- The `ArgumentError` branch of `with_output_to` (zip_kit_writer.rb:22-33) is not modelled,
  because it is unreachable: any object without `<<` is already taken as a path at line 15.
- ZipKit's streamer, DEFLATE and ZIP framing are foreign code. The model has an abstract entry
  writer that records the calls it receives.
- Sinks with no logic of their own are not modelled: io/directory.rb, io/rubyzip.rb,
  io/zip_tricks_io.rb, and io/zip_tricks_fibers.rb (a Fiber, so concurrency).
- lib/xlsxtream/header_row.rb sets instance variables that row.rb never reads, and
  lib/xlsxtream.rb only requires files; neither is part of this model.
- Behaviour that only some tests expect is not modelled, because the code does not have it:
  - boolean and styled cells in rows;
  - the fallback on an invalid date;
  - HeaderRow styles;
  - `Workbook#stylesheet`;
  - worksheet ids and names in `Worksheet`;
  - workbook-level `:columns`;
  - a `:name` option.
- The state a workbook or worksheet is left in after an exception is kept only as far as the
  lemmas need it: the log up to the failure.
- Workbooks.WorkbookPart, Workbooks.StylesPart, Workbooks.SstPart, Workbooks.WorkbookRelsPart,
  Workbooks.RootRelsPart, Workbooks.ContentTypesPart: their own contracts state only the path.
  Their texts are stated by SheetReferences, HashNameFails, StylesKeepFont, SstReadsBack,
  WorkbookRels and Overrides.
- Xml.Header: the declaration with its CRLF is a constant and carries no lemma of its own.
- Cell defaults (`Cells.Blank`) and `styled?` (`Cells.Styled`) are definitions. What they
  mean for styling is stated by Stylesheets.UnsupportedOptionsStyled.
- Ruby 3 keyword-argument conversion is not modelled: option hashes with String keys reach
  the keyword constructors as Ruby 2 would pass them. Sheet names given as Symbols are not
  modelled.
- Two places where the code and its tests disagree, and the model follows the code:
  - Workbooks.NameOptionIgnored: a Hash given as the only argument is taken as the options,
    so its `:name` is ignored (test/xlsxtream/workbook_test.rb:229-237 expects it to name the
    sheet).
  - Workbooks.DefaultNameCollision: the default name is counted, not checked, so it can
    collide with an explicit name.
- Cell text and sharedStrings.xml go through `escape_value` as written (Xml.EscapeValue).
  Its read-back is proved for text without `_`. The defects for text with `_` are shown
  under Findings, next to the corrected Xml.EscapeValueFixed, which reads back every string.
- Values.WholeFloatText: exact only while the day count stays below 2^53 in magnitude.
  Beyond that the Float loses digits, and from 10^16 on `Float#to_s` prints an exponent
  ("1.0e+16"). Such dates lie more than 2·10^13 years from 1899.
- Columns.WidthNumerator: matches Ruby's Float steps only while |c| stays below about
  5·10^12, where 256c nears 2^53 / 7. Past that the Float product rounds and the truncation
  can differ. Columns.WidthText has the same bound.
- ZipBuffer.FlushBuffer: `@wf << @buffer; @buffer.clear` (zip_kit_writer.rb:62-63) hands
  the entry writer the buffer String itself, then clears it. The model copies the chunk by
  value, so it assumes the entry writer consumes each chunk before it returns.
- HashSink.RunTracks: a log whose `close` comes before its last event is not covered. The
  workbook closes its sink only at the end.
- A Numeric other than Integer or Float (BigDecimal, Rational, Complex) is a `Number` value
  carrying its `to_s` text. Ruby's rendering of those classes is not modelled.

## Findings

| source | as written | input that shows it | evidently intended | confidence | as-written member | corrected member |
|---|---|---|---|---|---|---|
| lib/xlsxtream/xml.rb:46 | The underscore step replaces `_x` + 4 hex digits + `_` matches that do not overlap. So in `_xHHHH_xHHHH_` the shared `_` is used by the first match, and the second escape-like run is left as it is. | `"_x0041_x0042_"` is written `_x005f_x0041_x0042_`, which an ST_Xstring reader reads as `"_x0041B"` | Every underscore that would start an escape in the written text is itself escaped, so the text reads back as given. | high for the model, which proves it; not executed | Xml.EscapeValueOverlapCounterexample | Xml.EscapeValueFixedRoundTrip |
| lib/xlsxtream/xml.rb:47 | The underscore step runs before illegal characters become `_xHHHH_` escapes. An escape added by the last step can therefore complete a `_xHHHH` the underscore step did not see as an escape. | `"_xABCD\u0001"` is written `_xABCD_x0001_`, which a reader reads as U+ABCD followed by `"x0001_"` | An underscore followed by `x`, four hex digits and a character the last step will escape is escaped too. | high for the model, which proves it; not executed | Xml.EscapeValuePlaceholderCounterexample | Xml.EscapeValueFixedRoundTrip |
