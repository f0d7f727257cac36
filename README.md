# react-excel ingestion core, modelled in Dafny

react-excel lets a user upload an Excel workbook. It checks every worksheet
against a configured column mapping and per-column rules, and answers with a
per-sheet report together with the records that passed. This project models:

- **the ingestion pipeline of `uploadFile`** (`FileController`). Each
  worksheet goes through these steps:
  - build the header index;
  - check for missing configured columns, which stops the sheet early;
  - build a record per data row, running the required, numeric and date rules;
  - route each row to the sheet's `errors` or to its `data`/`validData`.

  The code that works step by step is written as methods:
  - the loops are `BuildHeaderIndex`, `FindMissingColumns`, `BuildRow`,
    `ProcessSheet` and `UploadFile`. Each carries an invariant equating what
    it has built with a specification function of the part of its input it
    has consumed, and its result equals that function;
  - two methods are loop-free steps. `ApplyRules` is the if-chain of one
    column's rules, and `CheckColumn` is one pass of the column loop. Each
    reports whether the date rule throws. When it does not throw, its
    messages and stored value equal their specification functions.

  The properties of the pipeline are lemmas about the specification functions.

  The specification is layered:
  - each data row yields a `RowOutcome`;
  - a sheet's errors, data and first throw are folds over the list of row outcomes;
  - each worksheet yields a `SheetOutcome`;
  - the response is a fold over the list of sheet outcomes.
- **the date validator `validateAndParseDate`** (`DateFormat`). It checks the
  fixed-width `DD-MM-YYYY` pattern, then the value, through a model of
  `new Date(year, month - 1, day)` as Gregorian calendar arithmetic
  (`JsDate`). Last it checks the window against the processing month, which
  is a parameter (`Now`).
- **the client formatter `formatDate`** (`Formatters`), over a calendar date
  given by its fields, with a round trip through the validator.
- **the JavaScript coercions the pipeline relies on** (`Cells`, `Text`):
  - truthiness `!v`;
  - `isNaN(Number(v))`, through the StringNumericLiteral grammar of
    section 7.1.4.1 of ECMA-262;
  - `String(v).trim().toLowerCase() === 'yes'`;
  - `String(n)` for integers.
- **a worked upload** (`Scenario`): one worksheet "Sales" under a chosen
  configuration (Name required; Amount required and numeric; Date required
  and a date; Verified coerced), with three data rows. Row 2 passes, row 3
  has the amount "abc" and row 4 has no name. The lemmas follow it through
  the header index, each column, each row, the sheet and the upload.

A cell value is `Null`, text, a number, a boolean or a date. A worksheet is
its name, the cells of row 1, and its rows with their worksheet row numbers.
The configuration (`server/config.json`, which is not part of this model) is
a parameter: an ordered column mapping and a rule map.

Points where the code behaves differently from what its schema and naming suggest:

- `rowNumber` is the worksheet row number. The first data row is 2, not 1.
- The coercion to boolean tests the mapped field name `'Verified'`
  (server/controllers/FileController.js:87), with a capital V. The record
  schema names the field `verified` (server/models/Record.js:9). The model
  follows the code.
- A date rule on a cell that is not text makes `dateStr.match` throw. The
  exception escapes both callbacks, and the handler answers with an error and
  no report, so the whole upload fails, not only that row. The model returns
  `Crashed(sheet, Throw(row, column))`.
- A month field of `00` or of `13` to `99` is not rejected. The date
  constructor rolls it into another year, and only the day is compared
  afterwards.

## Model

| member | source | states |
|---|---|---|
| FileController.Headers | server/controllers/FileController.js:58-60 | the header index of the cells of row 1, built left to right so that a later cell with the same text overwrites an earlier one; HeadersLastWins states its keys and values |
| FileController.BuildHeaderIndex | server/controllers/FileController.js:58-60 | the loop over the header cells builds exactly the index `Headers` of the header row |
| FileController.HeadersLastWins | server/controllers/FileController.js:58-60 | the index keys are exactly the header texts; a text that occurs more than once maps to the column of its last occurrence |
| FileController.HasColumn | server/controllers/FileController.js:64 | `headers[colName]` is truthy: the text is a header and its column number is not 0; MissingMessagesExactly states the messages in its terms |
| FileController.MissingMessages | server/controllers/FileController.js:62-67 | the missing-column messages of a sheet, one per configured column without a header, in mapping order; FindMissingColumns is proved equal to it and MissingMessagesExactly/Count characterise it |
| FileController.MissingMessage | server/controllers/FileController.js:65 | the text of a missing-column message: "Sheet ", the sheet name, " is missing required column ", the column text |
| FileController.FindMissingColumns | server/controllers/FileController.js:62-67 | the loop over the mapping builds exactly the missing-column messages `MissingMessages` |
| FileController.MissingMessagesConcat | server/controllers/FileController.js:62-67 | the messages come in mapping order: those of an earlier group of columns come before those of a later one |
| FileController.MissingMessagesExactly | server/controllers/FileController.js:62-67 | a message `Sheet <name> is missing required column <col>` exists for a column if and only if that column is absent from the index (or sits in column 0); there are none exactly when every column is present |
| FileController.MissingMessagesCount | server/controllers/FileController.js:62-67 | there is exactly one message per absent column |
| FileController.ShortCircuit | server/controllers/FileController.js:69-73 | a sheet with an absent column reports exactly its missing-column messages, and its result does not depend on its rows at all |
| FileController.ApplyRules | server/controllers/FileController.js:93-106 | a rule throws exactly when the date rule meets a non-text value; otherwise the messages are those of the required, numeric and date rules in that order, and the stored value is the parsed date when the date rule passes |
| FileController.CheckColumn | server/controllers/FileController.js:84-106 | one pass of the column loop reads the cell, applies the `Verified` coercion, writes the field and appends the column's messages, or reports the throwing date rule |
| FileController.BuildRow | server/controllers/FileController.js:81-109 | the column loop yields the row's first throwing column, or its messages when there are any, or its record |
| FileController.EvaluateRow | server/controllers/FileController.js:81-115 | a data row throws at its first throwing column, else fails with its messages when there are any, else passes with its record; BuildRow is proved equal to it |
| FileController.RowErrors | server/controllers/FileController.js:82-107 | a row's messages, the columns' messages in mapping order; RowErrorsConcat and RowErrorCount characterise it |
| FileController.RowThrow | server/controllers/FileController.js:83-107 | the first column in mapping order whose date rule meets a non-text value, if any; RowThrowFirst characterises it |
| FileController.IsDataRow | server/controllers/FileController.js:79 | a row is a data row exactly when its number is not 1; row 1 is the header row the row callback skips |
| FileController.InitialRecord | server/controllers/FileController.js:81 | the record before any column is read holds exactly `fileId`, the file reference, and `rowNumber`, the worksheet row number |
| FileController.RowRecord | server/controllers/FileController.js:81 | the record holds `fileId`, `rowNumber` and the field of every mapped column |
| FileController.RowRecordKeys | server/controllers/FileController.js:81-91 | the record's fields are exactly `fileId`, `rowNumber` and the mapped fields |
| FileController.RowRecordValues | server/controllers/FileController.js:91-104 | every mapped field holds its column's stored value; when two columns are mapped to one field, the later column wins |
| FileController.RowRecordIdentity | server/controllers/FileController.js:81 | `fileId` is the file entry and `rowNumber` is the worksheet row number, unless a column is mapped onto them |
| FileController.StoredValueCases | server/controllers/FileController.js:91-104 | without a date rule the field keeps the cell value; with one on text, it is replaced exactly when the date is valid, and then by a calendar date of the processing month with the input's day |
| FileController.VerifiedCoercion | server/controllers/FileController.js:87-98 | a `Verified` field holds whether the cell reads "yes", before any rule; a required one that is not "yes" reports "is required."; it never fails the numeric rule; a date rule on it throws |
| FileController.RawCell | server/controllers/FileController.js:84-85 | `row.getCell(colIndex).value`: the cell at that column, or null when the row has no value there |
| FileController.CellValue | server/controllers/FileController.js:84-89 | the value a configured column reads, coerced to the "yes" test when it is mapped to `Verified`; VerifiedCoercion states its consequences |
| FileController.ColumnNumber | server/controllers/FileController.js:84 | the column number the header index gives a configured name, 0 for a name with none (never read then, since a missing column ends the sheet first) |
| FileController.RulesOf | server/controllers/FileController.js:93-94 | the rules configured for a column; a column with no entry runs none of the three checks |
| FileController.RequiredFails | server/controllers/FileController.js:95 | the required rule fails exactly when the column has it and the value is falsy |
| FileController.NumericFails | server/controllers/FileController.js:98 | the numeric rule fails exactly when the column has it and the value converts to NaN |
| FileController.DateThrows | server/controllers/FileController.js:101-102 | the date rule throws exactly when the column has it and the value is not text, because the validator calls `match` on it (server/utils/dateFormat.js:3); the throw ends the whole upload |
| FileController.DateFails | server/controllers/FileController.js:101-103 | the date rule fails exactly when the column has it, the value is text and the validator rejects it |
| FileController.RowPrefix | server/controllers/FileController.js:96 | the prefix every row message starts with: "Row ", the row number's numeral, ": " |
| FileController.RequiredMessage | server/controllers/FileController.js:96 | the required-rule message: the row prefix, the column text, " is required." |
| FileController.NumericMessage | server/controllers/FileController.js:99 | the numeric-rule message: the row prefix, the column text, " must be numeric." |
| FileController.DateMessage | server/controllers/FileController.js:103 | the date-rule message: the row prefix, the column text, " - ", the validator's message |
| FileController.ColumnErrors | server/controllers/FileController.js:84-106 | one column's messages on a row: those of its configured rules on its (possibly coerced) cell value |
| FileController.ColumnThrows | server/controllers/FileController.js:84-102 | one column throws on a row exactly when its date rule meets its (possibly coerced) value that is not text |
| FileController.ColumnField | server/controllers/FileController.js:84-104 | the value a column writes into the record: the parsed date when its date rule passes, otherwise its (possibly coerced) cell value |
| FileController.CellErrors | server/controllers/FileController.js:93-106 | the messages of one cell, in the order required, numeric, date; CellErrorsExactly states when each one is present |
| FileController.StoredValue | server/controllers/FileController.js:91-104 | the value a column writes into the record: the cell value, or the parsed date when the date rule passes; StoredValueCases states both cases |
| FileController.MessagesDistinct | server/controllers/FileController.js:96-103 | the required, numeric and date messages of one row and column are pairwise different |
| FileController.CellErrorsExactly | server/controllers/FileController.js:95-105 | each rule's message appears if and only if that rule fails; the date message carries the validator's message; the number of messages equals the number of failed checks |
| FileController.ColumnErrorCount | server/controllers/FileController.js:93-106 | a column gives one message per failed check |
| FileController.RowErrorsConcat | server/controllers/FileController.js:83-107 | a row's messages follow the column order |
| FileController.RowErrorCount | server/controllers/FileController.js:83-107 | a row's message count equals its number of failed (column, rule) checks; it has none if and only if every check passes |
| FileController.RowThrowConcat | server/controllers/FileController.js:83-107 | the first throwing column of a split mapping is the first part's, if that part has one, else the second part's |
| FileController.RowThrowFirst | server/controllers/FileController.js:101-102 | the row throws if and only if some column's date rule meets a non-text value, and it reports the first such column |
| FileController.FailedHasErrors | server/controllers/FileController.js:109 | a row routed to the errors has at least one message |
| FileController.EvaluateSheet | server/controllers/FileController.js:58-116 | a sheet reports its missing columns alone, or throws at the first throwing data row, or reports its row messages and the records of the passing rows; ProcessSheet is proved equal to it |
| FileController.RowOutcomes | server/controllers/FileController.js:78-116 | the outcome of each data row in row order, row 1 skipped; RowOutcomesFromRows and HeaderRowSkipped characterise it |
| FileController.SheetErrors | server/controllers/FileController.js:109-110 | the messages of the failing rows in row order; SheetErrorsConcat states it |
| FileController.SheetData | server/controllers/FileController.js:112-114 | the records of the passing rows in row order; SheetDataFromRows characterises it |
| FileController.SheetThrow | server/controllers/FileController.js:78-116 | the first throwing row with its column, if any; SheetThrowFirst characterises it |
| FileController.ProcessSheet | server/controllers/FileController.js:52-116 | the sheet callback yields exactly `EvaluateSheet`: the missing-column report, or the first throw, or the errors and data of its rows |
| FileController.RowOutcomesConcat | server/controllers/FileController.js:78-116 | the row outcomes of consecutive groups of rows are concatenated in row order |
| FileController.RowInPlace | server/controllers/FileController.js:78-79 | a row contributes its own outcome, only if it is a data row, between those of the rows before and after it |
| FileController.HeaderRowSkipped | server/controllers/FileController.js:79 | a row numbered 1, wherever it sits, changes nothing: the sheet evaluates as if it were absent |
| FileController.RowLandsOnce | server/controllers/FileController.js:109-115 | a data row that does not throw adds either all its messages, in order, and no record, or its record and no message |
| FileController.SheetErrorsConcat | server/controllers/FileController.js:109-110 | errors accumulate in row order |
| FileController.SheetDataConcat | server/controllers/FileController.js:112-114 | records accumulate in row order |
| FileController.SheetThrowConcat | server/controllers/FileController.js:78-116 | the first throw over consecutive rows is the first throw of the earliest group that has one |
| FileController.RowOutcomesFromRows | server/controllers/FileController.js:78-116 | the outcomes are exactly those of the data rows |
| FileController.SheetDataFromRows | server/controllers/FileController.js:112-114 | a record is in the sheet's data if and only if it is the record of a passing row |
| FileController.SheetThrowFirst | server/controllers/FileController.js:78-116 | the rows are checked to the end if and only if none throws; otherwise the first throwing row is reported, with its number and column |
| FileController.SheetOutcomesOfBook | server/controllers/FileController.js:52-117 | the sheet outcomes are, in workbook order, each worksheet's name with its evaluation |
| FileController.SheetOutcomesConcat | server/controllers/FileController.js:52-117 | the sheet outcomes of consecutive groups of worksheets are concatenated in workbook order |
| FileController.CollectCrashPersists | server/controllers/FileController.js:102-124 | once a sheet has thrown, the later sheets change nothing |
| FileController.UploadFile | server/controllers/FileController.js:50-117 | the pipeline yields exactly `Ingest`: the response folded over the sheets in order, or the first throw |
| FileController.SheetOutcomes | server/controllers/FileController.js:52-117 | each worksheet's name with its evaluation, in workbook order; SheetOutcomesOfBook characterises it |
| FileController.Store | server/controllers/FileController.js:71-76 | writing a sheet's report into the response, and its data into `validData` only when the rows were checked |
| FileController.Collect | server/controllers/FileController.js:52-124 | the response after each sheet in turn, or the first throw, which ends the upload with no response |
| FileController.Ingest | server/controllers/FileController.js:50-117 | the whole upload: every worksheet evaluated in workbook order and collected; UploadFile is proved equal to it |
| FileController.StoreKeepsConsistent | server/controllers/FileController.js:71-114 | storing a sheet's report sets its entry, sets its `validData` only for checked rows, keeps every other sheet's entries and keeps the response consistent |
| FileController.CollectConsistent | server/controllers/FileController.js:71-114 | without a throw, `validData` has an entry at least for every sheet whose rows were checked, equal to its `data`, and only for names that have a report; with a repeated sheet name, a later missing-column report keeps an earlier sheet's `validData` entry, as lines 71-76 leave it |
| FileController.CollectNames | server/controllers/FileController.js:71-75 | without a throw, `sheets` has an entry exactly for the names of the sheets |
| FileController.CollectCrashIff | server/controllers/FileController.js:102-124 | the upload fails if and only if some sheet throws; it then names the first such sheet, and every sheet before it reported |
| FileController.CollectPerSheet | server/controllers/FileController.js:71-114 | with distinct names, each sheet's entry is its own report, and it has `validData` if and only if its rows were checked |
| FileController.IngestConsistent | server/controllers/FileController.js:50-117 | without a throw, the response has one entry per worksheet name, and `validData` agrees with the checked sheets' `data` |
| FileController.IngestCrashIff | server/controllers/FileController.js:52-124 | the upload fails if and only if some worksheet's evaluation throws |
| FileController.IngestCrashFirst | server/controllers/FileController.js:52-124 | a failed upload names the first throwing worksheet with its row and column; every worksheet before it reported |
| FileController.IngestPerSheet | server/controllers/FileController.js:52-117 | with distinct names, every worksheet's entry is its own evaluation's report; a sheet with missing columns has no `validData` |
| Cells.IsNumericText | server/controllers/FileController.js:98 | `Number` of a text is not NaN: its trimmed form is empty, a decimal numeral with optional sign, fraction, exponent or `Infinity`, or a 0x/0o/0b numeral; BlankIsNumeric, DigitsAreNumeric and LetterTextIsNaN are instances |
| Cells.IsFalsy | server/controllers/FileController.js:95 | `!cellValue` holds for exactly null, the empty text, zero and false |
| Cells.IsNaNNumber | server/controllers/FileController.js:98 | only text can fail to convert, and never blank text |
| Cells.LetterTextIsNaN | server/controllers/FileController.js:98 | text that begins and ends with a lower-case letter, such as "abc", is not numeric |
| Cells.IsYes | server/controllers/FileController.js:88 | a cell that coerces to true is text whose trimmed form has three characters |
| Cells.IsYesIff | server/controllers/FileController.js:88 | a text coerces to true if and only if its trimmed form is "yes" in any mix of cases |
| Cells.YesPadded | server/controllers/FileController.js:88 | "yes" in any mix of cases, with any whitespace around it (" yes ", "YES\t"), coerces to true |
| Cells.TrimKeeps | server/controllers/FileController.js:88 | a text that neither starts nor ends with whitespace is its own trim |
| Cells.BlankIsNumeric | server/controllers/FileController.js:98 | empty and blank text, and null, pass the numeric rule, because they convert to 0 |
| Cells.DigitsAreNumeric | server/controllers/FileController.js:98 | a non-empty string of decimal digits passes the numeric rule |
| Text.Trim | server/controllers/FileController.js:88 | the result is no longer than the input; it is empty or begins and ends with a character other than whitespace; it is the input itself when the input has no whitespace |
| Text.TrimStart | server/controllers/FileController.js:88 | the result is a suffix of the input; what it drops is whitespace, and it does not begin with whitespace |
| Text.TrimEnd | server/controllers/FileController.js:88 | the result is a prefix of the input; what it drops is whitespace, and it does not end with whitespace |
| Text.ToLowerAscii | server/controllers/FileController.js:88 | the result has the input's length, with each letter A to Z lowered |
| Text.IsJsWhitespace | server/controllers/FileController.js:88 | the JavaScript WhiteSpace and LineTerminator characters that `trim` removes and `Number` skips around a numeral |
| Text.IntToString | client/utils/formatters.ts:12 | `${year}`: the decimal numeral of an integer, with a minus sign when negative; FormatDateLayout and ShortYearRejected use its length and digits |
| Text.NatToString | server/controllers/FileController.js:96 | the numeral of a natural number is a non-empty digit string that reads back as that number, with no leading zero |
| Text.NatToStringWidth | client/utils/formatters.ts:10-12 | numbers below 10, 100, 1000 and 10000 print with 1, 2, 3 and 4 digits |
| Text.DigitsValue2 | server/utils/dateFormat.js:9 | a two-digit field reads as ten times its first digit plus its second |
| Text.DigitsValue4 | server/utils/dateFormat.js:9 | a four-digit field reads positionally |
| Text.DigitsValue | server/utils/dateFormat.js:9 | the value `Number` gives a string of decimal digits, leading zeros allowed; DigitsValue2 and DigitsValue4 read it positionally |
| DateFormat.ValidateAndParseDate | server/utils/dateFormat.js:1-22 | the format error arises if and only if the text does not match `DD-MM-YYYY`; a valid result is a calendar date of the processing month with the input's day; every other result is one of the three messages |
| DateFormat.MatchesPattern | server/utils/dateFormat.js:2-3 | the pattern matches exactly ten characters: two digits, a dash, two digits, a dash and four digits |
| DateFormat.DayOf | server/utils/dateFormat.js:9 | the first capture as a number, at most 99 |
| DateFormat.MonthOf | server/utils/dateFormat.js:9 | the second capture as a number, at most 99 |
| DateFormat.YearOf | server/utils/dateFormat.js:9 | the third capture as a number, at most 9999 |
| DateFormat.RolledYear | server/utils/dateFormat.js:10 | the year the date constructor lands in: the two-digit-adjusted captured year plus the whole years in the 0-based month index (floor division) |
| DateFormat.RolledMonth | server/utils/dateFormat.js:10 | the 0-based month the date constructor lands in: the 0-based month index modulo 12, always from 0 to 11 |
| DateFormat.PatternFields | server/utils/dateFormat.js:2-9 | the captured day, month and year are read digit by digit |
| DateFormat.ConstructedDate | server/utils/dateFormat.js:10-12 | for every matching text the constructed date is a real calendar date with a time value, so the NaN test never fires |
| DateFormat.ValueErrorIff | server/utils/dateFormat.js:10-14 | "Invalid date value." arises if and only if the day is 00 or beyond the length of the rolled month |
| DateFormat.ParsedDate | server/utils/dateFormat.js:10-21 | a matching text whose day fits denotes that day of the rolled month, and is valid if and only if that month is the processing month (else the window message) |
| DateFormat.WindowOnlyDependsOnNow | server/utils/dateFormat.js:16-19 | any failure other than the window check does not depend on the processing month |
| DateFormat.JuneDatePasses | server/utils/dateFormat.js:1-22 | in June 2024, `15-06-2024` is valid and denotes 15 June 2024 |
| DateFormat.JulyDateOutsideJune | server/utils/dateFormat.js:16-19 | in June 2024, `01-07-2024` fails the window check |
| DateFormat.IsoDateRejected | server/utils/dateFormat.js:2-7 | `2024-06-01` fails the format check |
| DateFormat.FebruaryThirtyFirst | server/utils/dateFormat.js:10-14 | `31-02-2024` gives "Invalid date value." |
| DateFormat.CommonYearLeapDay | server/utils/dateFormat.js:10-14 | `29-02-2023` gives "Invalid date value." |
| DateFormat.LeapDayExample | server/utils/dateFormat.js:10-21 | `29-02-2024` is valid in February 2024 |
| DateFormat.MonthRollExample | server/utils/dateFormat.js:10-12 | `15-13-2023` rolls to 15 January 2024 and is valid in that month |
| DateFormat.TwoDigitYearExample | server/utils/dateFormat.js:9-21 | "15-06-0024" in June 1924 is valid and denotes 15 June 1924: the constructor reads the year 24 as 1924 |
| JsDate.MakeFullYear | server/utils/dateFormat.js:10 | the date constructor reads a year from 0 to 99 as 1900 to 1999 and keeps any other year; TwoDigitYearExample shows it through the validator |
| JsDate.HasTimeValue | server/utils/dateFormat.js:12 | `isNaN(dateObj.getTime())` is false: the day lies within 100,000,000 days of 1 January 1970; ConstructHasTimeValue shows every matching text meets it |
| JsDate.DaysInMonth | server/utils/dateFormat.js:10 | a month has 28 to 31 days, and 29 exactly for February of a leap year |
| JsDate.Normalize | server/utils/dateFormat.js:10 | rolling a day into range always yields a calendar date |
| JsDate.Construct | server/utils/dateFormat.js:10 | `new Date(year, monthIndex, day)` always yields a calendar date |
| JsDate.YearLength | server/utils/dateFormat.js:10 | the serial day count gives a year 366 days exactly when the leap-year rule says so |
| JsDate.NextMonthStart | server/utils/dateFormat.js:10 | the first of the next month is the month's length after the first of this one |
| JsDate.NormalizeDayNumber | server/utils/dateFormat.js:10 | rolling is day arithmetic: the result is `day - 1` days after the first of the month given |
| JsDate.NormalizeKeepsDay | server/utils/dateFormat.js:12 | the day survives rolling unchanged if and only if it is a day of the given month |
| JsDate.ConstructHasTimeValue | server/utils/dateFormat.js:12 | every date built from a four-digit year, a month 00 to 99 and a day 00 to 99 lies within the time-value range |
| Formatters.FormatDate | client/utils/formatters.ts:8-14 | the output ends with a dash and the year's decimal numeral as `${year}` prints it; FormatDateLayout and RoundTrip state the rest |
| Formatters.PadStart2 | client/utils/formatters.ts:10-11 | a text of two or more characters is unchanged; a shorter one is filled with zeros in front up to two characters |
| Formatters.TwoDigits | client/utils/formatters.ts:10-11 | a number from 0 to 99, printed and padded, is two digits that read back as that number |
| Formatters.FormatDateLayout | client/utils/formatters.ts:10-13 | the output is the two-digit day, a dash, the two-digit 1-based month, a dash and the year's numeral |
| Formatters.ShortYearRejected | client/utils/formatters.ts:12 | every year below 1000 is rejected by the validator's format check: 0 to 999 print with fewer than four digits, and a negative year prints a minus sign where the year's first digit belongs |
| Formatters.FormattedFields | client/utils/formatters.ts:8-14 | for a four-digit year, the output has the validator's pattern, and its day, month and year fields read back as the date's |
| Formatters.RoundTrip | client/utils/formatters.ts:8-14 | for a four-digit year, the validator parses the output back to the same date; only the window check depends on the processing month |
| Scenario.SalesHeaders | server/controllers/FileController.js:58-60 | the example header row "Row", "Name", "Amount", "Date", "Verified" indexes each text at its column 1 to 5 |
| Scenario.SalesColumnsPresent | server/controllers/FileController.js:62-73 | with every configured column in the header, the example sheet gets no missing-column message, so its rows are checked |
| Scenario.AcceptedDateColumn | server/controllers/FileController.js:101-104 | a required date column whose text the validator accepts reports nothing and does not throw |
| Scenario.FourColumns | server/controllers/FileController.js:83-107 | over four configured columns, the row's messages are the four columns' messages in mapping order, and the row does not throw when no column does |
| Scenario.SalesRow | server/controllers/FileController.js:81-115 | under the example configuration and the processing month June 2024, a row whose Date cell is the text "15-06-2024" fails with the Name messages then the Amount messages, or passes when there are none |
| Scenario.CompleteRowPasses | server/controllers/FileController.js:81-115 | under the example configuration and the processing month June 2024, a row with a truthy Name, a truthy numeric Amount and the Date text "15-06-2024" passes, and its record keeps its row number |
| Scenario.NonNumericAmountFails | server/controllers/FileController.js:98-99 | under the example configuration and the processing month June 2024, a row with a truthy Name, the Date text "15-06-2024" and an Amount that is non-empty text but not a number fails with the one message "Row n: Amount must be numeric." |
| Scenario.TextAmountRowFails | server/controllers/FileController.js:98-99 | row 3, with the amount "abc", fails with "Row 3: Amount must be numeric." only |
| Scenario.NamelessRowFails | server/controllers/FileController.js:95-96 | row 4, without a name, fails with "Row 4: Name is required." only |
| Scenario.SheetOfThree | server/controllers/FileController.js:78-116 | a sheet whose header row is followed by one passing and two failing rows reports the two failing rows' messages in row order and the one record |
| Scenario.ThreeOutcomes | server/controllers/FileController.js:109-115 | one passing outcome then two failing ones: the messages of the failing two, in order, and the record of the passing one |
| Scenario.IngestOne | server/controllers/FileController.js:50-117 | a workbook of one sheet that reports its rows answers with that report under the sheet's name and its data under `validData` |
| Scenario.SalesReport | server/controllers/FileController.js:52-116 | the example sheet reports "Row 3: Amount must be numeric." then "Row 4: Name is required.", and the record of row 2 |
| Scenario.SalesUpload | server/controllers/FileController.js:50-117 | the example upload answers with the one sheet's two messages and one record, row 2's, which is also its only valid data |

## Left out

- The HTTP, filesystem and database plumbing of the controller (server/controllers/FileController.js:9-48, 119-125):
  - `getFiles` and `deleteFileById`;
  - the upload and empty-workbook checks;
  - saving the file entry, which becomes the `fileId` parameter;
  - deleting the file;
  - the JSON answer and the error message of the 500 answer.
- The assignments to the undeclared global `hasErrors` (server/controllers/FileController.js:70, 111): nothing reads it.
- Reading the workbook with ExcelJS. The model takes an already-parsed workbook, so these are not modelled:
  - the skipping of empty rows and cells in `eachRow` and `eachCell`;
  - rich-text, formula and hyperlink cell objects;
  - header cells whose value is not text.
- Keys that every JavaScript object inherits, such as `constructor`, in the `headers` and `validations` objects: a header index and a rule map are plain maps here.
- Key order of JavaScript objects:
  - the column mapping is given in its enumeration order;
  - records and `sheets` are maps, so their key order is not represented.
- Time zones and daylight saving time: dates are calendar days.
- The wall clock at server/utils/dateFormat.js:16: it is the `Now` parameter.
- `toLowerCase` outside A to Z: it cannot change whether a text equals "yes".
- `new Date(dateString)` at client/utils/formatters.ts:9: `formatDate` takes the date's fields.
- `indianNumberFormat` (client/utils/formatters.ts:1-6): floating-point locale formatting.
- server/server.js and its routing and upload limits are not part of this model; neither are the record controller, the models, the client API calls and the React components.
- Cells.IsNaNNumber: it covers text and treats null, booleans, numbers and dates as convertible. It does not model the `Number` of an object cell, or of a date whose time value is NaN.
- Cells.IsYesIff: "Yes", "YES", "No" and "y" are not stated as separate concrete lemmas; the general characterisation covers them.
- DateFormat.ValidateAndParseDate: it takes text. A non-text argument is handled one level up, as the throw of `DateThrows`.
- FileController.DistinctSheetNames: a requirement of `IngestPerSheet`. Worksheet names in a workbook are distinct, and the model does not build workbooks.
