/**
 * The ingestion pipeline of `uploadFile`: for every worksheet of an already
 * parsed workbook, index the header row, report configured columns that are
 * missing (and then skip the sheet's rows), otherwise turn every data row
 * into a record while running the required, numeric and date rules, and
 * route each row either to the sheet's errors or to its valid data.
 *
 * The loops of the source are methods; each is proved equal to a function
 * over the prefix it has consumed, and the properties of the pipeline are
 * lemmas about those functions.
 */
module FileController {
  import opened Text
  import opened Cells
  import opened JsDate
  import opened DateFormat

  datatype Option<T> = None | Some(value: T)

  // ---------------------------------------------------------------- workbook

  /** A cell of the header row: its 1-based column number and its text. */
  datatype HeaderCell = HeaderCell(col: nat, text: string)

  /** A worksheet row: its 1-based row number and its cells by column number (absent means empty). */
  datatype SheetRow = SheetRow(number: nat, cells: map<nat, Cell>)

  /** A worksheet: its name, the cells of row 1 in column order, and its rows in row order. */
  datatype Worksheet = Worksheet(name: string, header: seq<HeaderCell>, rows: seq<SheetRow>)

  // ------------------------------------------------------------ configuration

  /** A configured column: the header text to look for and the record field it fills. */
  datatype Column = Column(name: string, field: string)

  datatype Rules = Rules(required: bool, numeric: bool, date: bool)

  /** The `columns` mapping in its enumeration order, and the rules by header text. */
  datatype Config = Config(columns: seq<Column>, validation: map<string, Rules>)

  // ----------------------------------------------------------------- results

  /** The identifier of the saved file entry, copied into every record. */
  type FileId = string

  datatype Field = FileRef(id: FileId) | Value(cell: Cell)

  /** A record: field name to value. */
  type Record = map<string, Field>

  /** Only errors for a sheet with missing columns; errors and data for one whose rows were checked. */
  datatype SheetReport = ColumnsMissing(errors: seq<string>) | RowsChecked(errors: seq<string>, data: seq<Record>)

  /** The object that answers the upload: a report per sheet name and the valid records per sheet name. */
  datatype Response = Response(sheets: map<string, SheetReport>, validData: map<string, seq<Record>>)

  /** Where a date rule met a value that is not text, so that `dateStr.match` throws. */
  datatype Throw = Throw(row: nat, column: string)

  /**
   * The outcome of the pipeline: the response, or the exception that
   * escapes it (the handler then answers with an error and no report).
   */
  datatype Upload = Responded(response: Response) | Crashed(sheet: string, at: Throw)

  // ------------------------------------------------------------ header index

  /** Each header cell's text indexed by its column number, in column order, a later cell overwriting an earlier one. */
  function Headers(h: seq<HeaderCell>): map<string, nat> {
    if h == [] then map[] else Headers(h[..|h| - 1])[h[|h| - 1].text := h[|h| - 1].col]
  }

  method BuildHeaderIndex(h: seq<HeaderCell>) returns (headers: map<string, nat>)
    ensures headers == Headers(h)
  {
    headers := map[];
    var i := 0;
    while i < |h|
      invariant 0 <= i <= |h|
      invariant headers == Headers(h[..i])
    {
      assert h[..i + 1][..i] == h[..i];
      headers := headers[h[i].text := h[i].col];
      i := i + 1;
    }
    assert h[..|h|] == h;
  }

  /**
   * Every header text is a key, and nothing else is; a text that occurs
   * more than once maps to the column of its last occurrence.
   */
  lemma {:induction false} HeadersLastWins(h: seq<HeaderCell>)
    ensures forall t :: t in Headers(h) <==> exists j :: 0 <= j < |h| && h[j].text == t
    ensures forall j :: 0 <= j < |h| && (forall k :: j < k < |h| ==> h[k].text != h[j].text) ==>
                        Headers(h)[h[j].text] == h[j].col
  {
    if h != [] {
      var p := h[..|h| - 1];
      HeadersLastWins(p);
      forall t | t in Headers(h) ensures exists j :: 0 <= j < |h| && h[j].text == t {
        if t != h[|h| - 1].text {
          assert t in Headers(p);
          var j :| 0 <= j < |p| && p[j].text == t;
          assert h[j] == p[j];
        }
      }
      forall t | exists j :: 0 <= j < |h| && h[j].text == t ensures t in Headers(h) {
        var j :| 0 <= j < |h| && h[j].text == t;
        if j < |p| {
          assert p[j] == h[j];
        }
      }
      forall j | 0 <= j < |h| && (forall k :: j < k < |h| ==> h[k].text != h[j].text)
        ensures Headers(h)[h[j].text] == h[j].col
      {
        if j < |p| {
          assert p[j] == h[j];
          assert h[|h| - 1].text != h[j].text;
          forall k | j < k < |p| ensures p[k].text != p[j].text {
            assert p[k] == h[k];
          }
        }
      }
    }
  }

  // --------------------------------------------------------- missing columns

  /** A configured column is present when its text is indexed at a column number other than 0. */
  predicate HasColumn(headers: map<string, nat>, name: string) {
    name in headers && headers[name] != 0
  }

  function MissingMessage(sheet: string, name: string): string {
    "Sheet " + sheet + " is missing required column " + name
  }

  /** The sheet errors of the column check, for the configured columns `cols` in order. */
  function MissingMessages(sheet: string, cols: seq<Column>, headers: map<string, nat>): seq<string> {
    if cols == [] then []
    else
      var c := cols[|cols| - 1];
      MissingMessages(sheet, cols[..|cols| - 1], headers)
      + (if HasColumn(headers, c.name) then [] else [MissingMessage(sheet, c.name)])
  }

  method FindMissingColumns(sheet: string, cols: seq<Column>, headers: map<string, nat>) returns (sheetErrors: seq<string>)
    ensures sheetErrors == MissingMessages(sheet, cols, headers)
  {
    sheetErrors := [];
    var i := 0;
    while i < |cols|
      invariant 0 <= i <= |cols|
      invariant sheetErrors == MissingMessages(sheet, cols[..i], headers)
    {
      assert cols[..i + 1][..i] == cols[..i];
      if !HasColumn(headers, cols[i].name) {
        sheetErrors := sheetErrors + [MissingMessage(sheet, cols[i].name)];
      }
      i := i + 1;
    }
    assert cols[..|cols|] == cols;
  }

  /** The messages follow the mapping order: those of `a` come before those of `b`. */
  lemma {:induction false} MissingMessagesConcat(sheet: string, a: seq<Column>, b: seq<Column>, headers: map<string, nat>)
    ensures MissingMessages(sheet, a + b, headers) == MissingMessages(sheet, a, headers) + MissingMessages(sheet, b, headers)
  {
    if b == [] {
      assert a + b == a;
    } else {
      var b' := b[..|b| - 1];
      assert (a + b)[..|a + b| - 1] == a + b';
      MissingMessagesConcat(sheet, a, b', headers);
    }
  }

  /**
   * There is a message for every absent column and only for absent ones, at
   * most one per configured column; there are none exactly when every
   * configured column is present.
   */
  lemma {:induction false} MissingMessagesExactly(sheet: string, cols: seq<Column>, headers: map<string, nat>)
    ensures forall m :: m in MissingMessages(sheet, cols, headers) <==>
              exists k :: 0 <= k < |cols| && !HasColumn(headers, cols[k].name) && m == MissingMessage(sheet, cols[k].name)
    ensures MissingMessages(sheet, cols, headers) == [] <==> forall k :: 0 <= k < |cols| ==> HasColumn(headers, cols[k].name)
    ensures |MissingMessages(sheet, cols, headers)| <= |cols|
  {
    if cols != [] {
      var p := cols[..|cols| - 1];
      var c := cols[|cols| - 1];
      MissingMessagesExactly(sheet, p, headers);
      forall m | m in MissingMessages(sheet, cols, headers)
        ensures exists k :: 0 <= k < |cols| && !HasColumn(headers, cols[k].name) && m == MissingMessage(sheet, cols[k].name)
      {
        if m in MissingMessages(sheet, p, headers) {
          var k :| 0 <= k < |p| && !HasColumn(headers, p[k].name) && m == MissingMessage(sheet, p[k].name);
          assert cols[k] == p[k];
        }
      }
      forall m | exists k :: 0 <= k < |cols| && !HasColumn(headers, cols[k].name) && m == MissingMessage(sheet, cols[k].name)
        ensures m in MissingMessages(sheet, cols, headers)
      {
        var k :| 0 <= k < |cols| && !HasColumn(headers, cols[k].name) && m == MissingMessage(sheet, cols[k].name);
        if k < |p| {
          assert p[k] == cols[k];
        }
      }
      if forall k :: 0 <= k < |cols| ==> HasColumn(headers, cols[k].name) {
        forall k | 0 <= k < |p| ensures HasColumn(headers, p[k].name) {
          assert p[k] == cols[k];
        }
      }
    }
  }

  /** The number of configured columns among `cols` that the header row lacks. */
  function AbsentCount(cols: seq<Column>, headers: map<string, nat>): nat {
    if cols == [] then 0
    else AbsentCount(cols[..|cols| - 1], headers) + if HasColumn(headers, cols[|cols| - 1].name) then 0 else 1
  }

  /** Exactly one message per absent column. */
  lemma {:induction false} MissingMessagesCount(sheet: string, cols: seq<Column>, headers: map<string, nat>)
    ensures |MissingMessages(sheet, cols, headers)| == AbsentCount(cols, headers)
  {
    if cols != [] {
      MissingMessagesCount(sheet, cols[..|cols| - 1], headers);
    }
  }

  // -------------------------------------------------------------------- rows

  /** What the rows of a sheet are read against: the configuration, its header index, the processing month, the file entry. */
  datatype Context = Context(cfg: Config, headers: map<string, nat>, now: Now, fileId: FileId)

  /** The column number indexed for a configured name, which the row loop reads only once every configured column is present. */
  function ColumnNumber(headers: map<string, nat>, name: string): nat {
    if name in headers then headers[name] else 0
  }

  /** The value of a row's cell at a column number: an empty cell reads as null. */
  function RawCell(row: SheetRow, col: nat): Cell {
    if col in row.cells then row.cells[col] else Null
  }

  /** The value of a configured column on a row, after the coercion of the `Verified` field. */
  function CellValue(ctx: Context, row: SheetRow, c: Column): Cell {
    var raw := RawCell(row, ColumnNumber(ctx.headers, c.name));
    if c.field == "Verified" then Bool(IsYes(raw)) else raw
  }

  /** The rules configured for a column; a column without an entry is checked by none. */
  function RulesOf(cfg: Config, name: string): Rules {
    if name in cfg.validation then cfg.validation[name] else Rules(false, false, false)
  }

  function RowPrefix(n: nat): string {
    "Row " + NatToString(n) + ": "
  }

  function RequiredMessage(n: nat, name: string): string {
    RowPrefix(n) + name + " is required."
  }

  function NumericMessage(n: nat, name: string): string {
    RowPrefix(n) + name + " must be numeric."
  }

  function DateMessage(n: nat, name: string, message: string): string {
    RowPrefix(n) + name + " - " + message
  }

  predicate RequiredFails(rules: Rules, v: Cell) {
    rules.required && IsFalsy(v)
  }

  predicate NumericFails(rules: Rules, v: Cell) {
    rules.numeric && IsNaNNumber(v)
  }

  /** The date rule on a value that is not text: the validator's `dateStr.match` throws. */
  predicate DateThrows(rules: Rules, v: Cell) {
    rules.date && !v.Str?
  }

  predicate DateFails(rules: Rules, v: Cell, now: Now) {
    rules.date && v.Str? && ValidateAndParseDate(v.s, now).Invalid?
  }

  /** The messages of one column's rules, in the order required, numeric, date. */
  function CellErrors(n: nat, name: string, rules: Rules, v: Cell, now: Now): seq<string> {
    (if RequiredFails(rules, v) then [RequiredMessage(n, name)] else [])
    + (if NumericFails(rules, v) then [NumericMessage(n, name)] else [])
    + (if DateFails(rules, v, now) then [DateMessage(n, name, ValidateAndParseDate(v.s, now).message)] else [])
  }

  /** The value the record keeps for a column: the parsed date when the date rule passes, the cell value otherwise. */
  function StoredValue(rules: Rules, v: Cell, now: Now): Field {
    if rules.date && v.Str? && ValidateAndParseDate(v.s, now).Valid? then Value(Date(ValidateAndParseDate(v.s, now).date))
    else Value(v)
  }

  function ColumnErrors(ctx: Context, row: SheetRow, c: Column): seq<string> {
    CellErrors(row.number, c.name, RulesOf(ctx.cfg, c.name), CellValue(ctx, row, c), ctx.now)
  }

  predicate ColumnThrows(ctx: Context, row: SheetRow, c: Column) {
    DateThrows(RulesOf(ctx.cfg, c.name), CellValue(ctx, row, c))
  }

  function ColumnField(ctx: Context, row: SheetRow, c: Column): Field {
    StoredValue(RulesOf(ctx.cfg, c.name), CellValue(ctx, row, c), ctx.now)
  }

  /** The record before any column is read: the file reference and the worksheet row number. */
  function InitialRecord(fileId: FileId, n: nat): Record {
    map["fileId" := FileRef(fileId), "rowNumber" := Value(Num(n as real))]
  }

  /** The row's messages over the columns `cols`, column by column. */
  function RowErrors(ctx: Context, row: SheetRow, cols: seq<Column>): seq<string> {
    if cols == [] then [] else RowErrors(ctx, row, cols[..|cols| - 1]) + ColumnErrors(ctx, row, cols[|cols| - 1])
  }

  /** The record after the columns `cols`, each writing its field. */
  function RowRecord(ctx: Context, row: SheetRow, cols: seq<Column>): (r: Record)
    ensures "fileId" in r && "rowNumber" in r
    ensures forall k :: 0 <= k < |cols| ==> cols[k].field in r
  {
    if cols == [] then InitialRecord(ctx.fileId, row.number)
    else
      var p := cols[..|cols| - 1];
      var c := cols[|cols| - 1];
      var m := RowRecord(ctx, row, p);
      assert forall k :: 0 <= k < |p| ==> cols[k] == p[k] && p[k].field in m;
      m[c.field := ColumnField(ctx, row, c)]
  }

  /** The first of the columns `cols` whose date rule throws. */
  function RowThrow(ctx: Context, row: SheetRow, cols: seq<Column>): Option<string> {
    if cols == [] then None
    else
      var t := RowThrow(ctx, row, cols[..|cols| - 1]);
      if t.Some? then t
      else if ColumnThrows(ctx, row, cols[|cols| - 1]) then Some(cols[|cols| - 1].name)
      else None
  }

  datatype RowResult = Passed(record: Record) | Failed(errors: seq<string>) | Threw(column: string)

  /** One data row: it throws, or it has messages, or it yields its record. */
  function EvaluateRow(ctx: Context, row: SheetRow): RowResult {
    var cols := ctx.cfg.columns;
    match RowThrow(ctx, row, cols)
    case Some(c) => Threw(c)
    case None =>
      var errors := RowErrors(ctx, row, cols);
      if errors != [] then Failed(errors) else Passed(RowRecord(ctx, row, cols))
  }

  lemma {:induction false} RowThrowConcat(ctx: Context, row: SheetRow, a: seq<Column>, b: seq<Column>)
    ensures RowThrow(ctx, row, a + b) == if RowThrow(ctx, row, a).Some? then RowThrow(ctx, row, a) else RowThrow(ctx, row, b)
  {
    if b == [] {
      assert a + b == a;
    } else {
      var b' := b[..|b| - 1];
      assert (a + b)[..|a + b| - 1] == a + b';
      RowThrowConcat(ctx, row, a, b');
    }
  }

  /**
   * The rules of one column on its value, in the order required, numeric,
   * date: the messages they give and the value the record keeps. `throws`
   * reports the date rule on a value that is not text.
   */
  method ApplyRules(n: nat, name: string, rules: Rules, v: Cell, now: Now) returns (messages: seq<string>, stored: Field, throws: bool)
    ensures throws == DateThrows(rules, v)
    ensures !throws ==> messages == CellErrors(n, name, rules, v, now) && stored == StoredValue(rules, v, now)
  {
    var required, numeric, date := [], [], [];
    messages, stored := [], Value(v);
    throws := false;
    if rules.required && IsFalsy(v) {
      required := [RequiredMessage(n, name)];
    }
    if rules.numeric && IsNaNNumber(v) {
      numeric := [NumericMessage(n, name)];
    }
    if rules.date {
      if !v.Str? {
        throws := true;
        return;
      }
      var parsed := ValidateAndParseDate(v.s, now);
      if parsed.Invalid? {
        date := [DateMessage(n, name, parsed.message)];
      } else {
        stored := Value(Date(parsed.date));
      }
    }
    messages := required + numeric + date;
  }

  /**
   * One pass of the column loop: read the cell, coerce `Verified`, write the
   * field, then run the column's rules. A column without an entry in the
   * rule map is checked by no rule, as the source skips the checks then.
   * `throws` reports the throwing date rule.
   */
  method CheckColumn(ctx: Context, row: SheetRow, c: Column, rowData: Record, rowErrors: seq<string>)
    returns (rowData': Record, rowErrors': seq<string>, throws: bool)
    ensures throws == ColumnThrows(ctx, row, c)
    ensures !throws ==> rowData' == rowData[c.field := ColumnField(ctx, row, c)]
    ensures !throws ==> rowErrors' == rowErrors + ColumnErrors(ctx, row, c)
  {
    var cellValue := RawCell(row, ColumnNumber(ctx.headers, c.name));
    if c.field == "Verified" {
      cellValue := Bool(IsYes(cellValue));
    }
    assert cellValue == CellValue(ctx, row, c);
    rowData', rowErrors' := rowData[c.field := Value(cellValue)], rowErrors;
    var messages, stored;
    messages, stored, throws := ApplyRules(row.number, c.name, RulesOf(ctx.cfg, c.name), cellValue, ctx.now);
    if throws {
      return;
    }
    rowData' := rowData'[c.field := stored];
    rowErrors' := rowErrors + messages;
  }

  /** What one pass of the column loop does to the record, the messages and the first throw. */
  lemma ColumnStep(ctx: Context, row: SheetRow, cols: seq<Column>, i: nat,
                   rowData: Record, rowErrors: seq<string>, throws: bool, rowData': Record, rowErrors': seq<string>)
    requires i < |cols|
    requires rowData == RowRecord(ctx, row, cols[..i]) && rowErrors == RowErrors(ctx, row, cols[..i])
    requires RowThrow(ctx, row, cols[..i]) == None
    requires throws == ColumnThrows(ctx, row, cols[i])
    requires !throws ==> rowData' == rowData[cols[i].field := ColumnField(ctx, row, cols[i])]
    requires !throws ==> rowErrors' == rowErrors + ColumnErrors(ctx, row, cols[i])
    ensures throws ==> RowThrow(ctx, row, cols) == Some(cols[i].name)
    ensures !throws ==> && rowData' == RowRecord(ctx, row, cols[..i + 1])
                        && rowErrors' == RowErrors(ctx, row, cols[..i + 1])
                        && RowThrow(ctx, row, cols[..i + 1]) == None
  {
    assert cols[..i + 1][..i] == cols[..i];
    if throws {
      RowThrowConcat(ctx, row, cols[..i + 1], cols[i + 1..]);
      assert cols[..i + 1] + cols[i + 1..] == cols;
    }
  }

  /** The column loop of the row callback, then the row's routing decision. */
  method BuildRow(ctx: Context, row: SheetRow) returns (result: RowResult)
    ensures result == EvaluateRow(ctx, row)
  {
    var cols := ctx.cfg.columns;
    var rowData := InitialRecord(ctx.fileId, row.number);
    var rowErrors: seq<string> := [];
    var i := 0;
    while i < |cols|
      invariant 0 <= i <= |cols|
      invariant rowData == RowRecord(ctx, row, cols[..i])
      invariant rowErrors == RowErrors(ctx, row, cols[..i])
      invariant RowThrow(ctx, row, cols[..i]) == None
    {
      var rowData', rowErrors', throws := CheckColumn(ctx, row, cols[i], rowData, rowErrors);
      ColumnStep(ctx, row, cols, i, rowData, rowErrors, throws, rowData', rowErrors');
      if throws {
        return Threw(cols[i].name);
      }
      rowData, rowErrors := rowData', rowErrors';
      i := i + 1;
    }
    assert cols[..|cols|] == cols;
    if |rowErrors| > 0 {
      result := Failed(rowErrors);
    } else {
      result := Passed(rowData);
    }
  }

  // ------------------------------------------------------ properties of rows

  /** The three kinds of row message differ just after the column name, so none is mistaken for another. */
  lemma MessagesDistinct(n: nat, name: string, message: string)
    ensures RequiredMessage(n, name) != NumericMessage(n, name)
    ensures RequiredMessage(n, name) != DateMessage(n, name, message)
    ensures NumericMessage(n, name) != DateMessage(n, name, message)
  {
    var p := RowPrefix(n) + name;
    var k := |p| + 1;
    assert RequiredMessage(n, name) == p + " is required.";
    assert NumericMessage(n, name) == p + " must be numeric.";
    assert DateMessage(n, name, message) == p + " - " + message;
    assert RequiredMessage(n, name)[k] == 'i';
    assert NumericMessage(n, name)[k] == 'm';
    assert DateMessage(n, name, message)[k] == '-';
  }

  function Count(b: bool): nat {
    if b then 1 else 0
  }

  /** The number of a column's checks that fail: required, numeric and date are counted separately. */
  function FailedChecks(rules: Rules, v: Cell, now: Now): nat {
    Count(RequiredFails(rules, v)) + Count(NumericFails(rules, v)) + Count(DateFails(rules, v, now))
  }

  /**
   * Each rule contributes its own message exactly when it fails, the date
   * message carrying the validator's message, and nothing else is reported.
   */
  lemma CellErrorsExactly(n: nat, name: string, rules: Rules, v: Cell, now: Now)
    ensures var errs := CellErrors(n, name, rules, v, now);
            && (RequiredMessage(n, name) in errs <==> RequiredFails(rules, v))
            && (NumericMessage(n, name) in errs <==> NumericFails(rules, v))
            && ((exists m :: DateMessage(n, name, m) in errs) <==> DateFails(rules, v, now))
            && (DateFails(rules, v, now) ==> DateMessage(n, name, ValidateAndParseDate(v.s, now).message) in errs)
            && |errs| == FailedChecks(rules, v, now)
  {
    var errs := CellErrors(n, name, rules, v, now);
    var r, u, d := RequiredFails(rules, v), NumericFails(rules, v), DateFails(rules, v, now);
    var dm := if d then ValidateAndParseDate(v.s, now).message else "";
    var rm, um := RequiredMessage(n, name), NumericMessage(n, name);
    CellErrorsFlags(n, name, rules, v, now, dm);
    MessagesDistinct(n, name, dm);
    OptionalMessages(r, u, d, rm, um, DateMessage(n, name, dm));
    assert (rm in errs <==> r) && (um in errs <==> u) && |errs| == FailedChecks(rules, v, now);
    assert d ==> DateMessage(n, name, ValidateAndParseDate(v.s, now).message) in errs;
    forall m | DateMessage(n, name, m) in errs ensures d {
      MessagesDistinct(n, name, m);
    }
  }

  /** The messages of a cell as three optional messages, the date one carrying `dm` when the date rule fails. */
  lemma CellErrorsFlags(n: nat, name: string, rules: Rules, v: Cell, now: Now, dm: string)
    requires DateFails(rules, v, now) ==> dm == ValidateAndParseDate(v.s, now).message
    ensures CellErrors(n, name, rules, v, now) ==
            (if RequiredFails(rules, v) then [RequiredMessage(n, name)] else [])
            + (if NumericFails(rules, v) then [NumericMessage(n, name)] else [])
            + (if DateFails(rules, v, now) then [DateMessage(n, name, dm)] else [])
  {
  }

  /** Three messages, each present when its flag is set: a distinct message is present exactly when its flag is. */
  lemma OptionalMessages(r: bool, u: bool, d: bool, rm: string, um: string, dm: string)
    requires rm != um && rm != dm && um != dm
    ensures var errs := (if r then [rm] else []) + (if u then [um] else []) + (if d then [dm] else []);
            && (rm in errs <==> r) && (um in errs <==> u) && (dm in errs <==> d)
            && (forall m :: m in errs ==> m == rm || m == um || m == dm)
            && |errs| == Count(r) + Count(u) + Count(d)
  {
  }

  function ColumnFailedChecks(ctx: Context, row: SheetRow, c: Column): nat {
    FailedChecks(RulesOf(ctx.cfg, c.name), CellValue(ctx, row, c), ctx.now)
  }

  lemma ColumnErrorCount(ctx: Context, row: SheetRow, c: Column)
    ensures |ColumnErrors(ctx, row, c)| == ColumnFailedChecks(ctx, row, c)
  {
    CellErrorsExactly(row.number, c.name, RulesOf(ctx.cfg, c.name), CellValue(ctx, row, c), ctx.now);
  }

  function RowFailedChecks(ctx: Context, row: SheetRow, cols: seq<Column>): nat {
    if cols == [] then 0
    else RowFailedChecks(ctx, row, cols[..|cols| - 1]) + ColumnFailedChecks(ctx, row, cols[|cols| - 1])
  }

  lemma AppendAssoc(x: seq<string>, y: seq<string>, z: seq<string>)
    ensures x + y + z == x + (y + z)
  {
  }

  /** One more column appends that column's messages. */
  lemma RowErrorsLast(ctx: Context, row: SheetRow, p: seq<Column>, c: Column)
    ensures RowErrors(ctx, row, p + [c]) == RowErrors(ctx, row, p) + ColumnErrors(ctx, row, c)
  {
    assert (p + [c])[..|p + [c]| - 1] == p;
  }

  /** A row's messages follow the column order. */
  lemma {:induction false} RowErrorsConcat(ctx: Context, row: SheetRow, a: seq<Column>, b: seq<Column>)
    ensures RowErrors(ctx, row, a + b) == RowErrors(ctx, row, a) + RowErrors(ctx, row, b)
  {
    if b == [] {
      assert a + b == a;
    } else {
      var b', c := b[..|b| - 1], b[|b| - 1];
      assert b == b' + [c];
      assert a + b == (a + b') + [c];
      RowErrorsConcat(ctx, row, a, b');
      RowErrorsLast(ctx, row, a + b', c);
      RowErrorsLast(ctx, row, b', c);
      var x, y, e := RowErrors(ctx, row, a), RowErrors(ctx, row, b'), ColumnErrors(ctx, row, c);
      assert RowErrors(ctx, row, a + b) == x + y + e;
      assert RowErrors(ctx, row, b) == y + e;
      AppendAssoc(x, y, e);
    }
  }

  /**
   * A row has one message per failed (column, rule) check, so it has none
   * exactly when every check of every column passes.
   */
  lemma {:induction false} RowErrorCount(ctx: Context, row: SheetRow, cols: seq<Column>)
    ensures |RowErrors(ctx, row, cols)| == RowFailedChecks(ctx, row, cols)
    ensures RowErrors(ctx, row, cols) == [] <==> forall k :: 0 <= k < |cols| ==> ColumnFailedChecks(ctx, row, cols[k]) == 0
  {
    if cols != [] {
      var p := cols[..|cols| - 1];
      var c := cols[|cols| - 1];
      RowErrorCount(ctx, row, p);
      ColumnErrorCount(ctx, row, c);
      assert |RowErrors(ctx, row, cols)| == |RowErrors(ctx, row, p)| + |ColumnErrors(ctx, row, c)|;
      assert RowFailedChecks(ctx, row, cols) == RowFailedChecks(ctx, row, p) + ColumnFailedChecks(ctx, row, c);
      if RowErrors(ctx, row, cols) == [] {
        forall k | 0 <= k < |cols| ensures ColumnFailedChecks(ctx, row, cols[k]) == 0 {
          if k < |p| {
            assert cols[k] == p[k];
          }
        }
      }
      if forall k :: 0 <= k < |cols| ==> ColumnFailedChecks(ctx, row, cols[k]) == 0 {
        forall k | 0 <= k < |p| ensures ColumnFailedChecks(ctx, row, p[k]) == 0 {
          assert p[k] == cols[k];
        }
        assert ColumnFailedChecks(ctx, row, cols[|cols| - 1]) == 0;
      }
    }
  }

  /** The first throwing column: there is none exactly when no column's date rule throws. */
  lemma {:induction false} RowThrowFirst(ctx: Context, row: SheetRow, cols: seq<Column>)
    ensures RowThrow(ctx, row, cols) == None <==> forall k :: 0 <= k < |cols| ==> !ColumnThrows(ctx, row, cols[k])
    ensures RowThrow(ctx, row, cols).Some? ==>
              exists k :: && 0 <= k < |cols| && cols[k].name == RowThrow(ctx, row, cols).value
                          && ColumnThrows(ctx, row, cols[k])
                          && forall j :: 0 <= j < k ==> !ColumnThrows(ctx, row, cols[j])
  {
    if cols != [] {
      var p := cols[..|cols| - 1];
      RowThrowFirst(ctx, row, p);
      if RowThrow(ctx, row, p).Some? {
        var k :| && 0 <= k < |p| && p[k].name == RowThrow(ctx, row, p).value
                 && ColumnThrows(ctx, row, p[k]) && forall j :: 0 <= j < k ==> !ColumnThrows(ctx, row, p[j]);
        assert cols[k] == p[k];
        forall j | 0 <= j < k ensures !ColumnThrows(ctx, row, cols[j]) {
          assert cols[j] == p[j];
        }
      } else {
        forall j | 0 <= j < |p| ensures !ColumnThrows(ctx, row, cols[j]) {
          assert cols[j] == p[j];
        }
      }
    }
  }

  /** The record's fields are `fileId`, `rowNumber` and the fields of the mapped columns. */
  lemma {:induction false} RowRecordKeys(ctx: Context, row: SheetRow, cols: seq<Column>)
    ensures forall f :: f in RowRecord(ctx, row, cols) <==>
              f == "fileId" || f == "rowNumber" || exists k :: 0 <= k < |cols| && cols[k].field == f
  {
    if cols != [] {
      var p := cols[..|cols| - 1];
      var c := cols[|cols| - 1];
      RowRecordKeys(ctx, row, p);
      assert RowRecord(ctx, row, cols) == RowRecord(ctx, row, p)[c.field := ColumnField(ctx, row, c)];
      forall f | f in RowRecord(ctx, row, cols) && f != "fileId" && f != "rowNumber"
        ensures exists k :: 0 <= k < |cols| && cols[k].field == f
      {
        if f != c.field {
          var k :| 0 <= k < |p| && p[k].field == f;
          assert cols[k] == p[k];
        }
      }
      forall f | exists k :: 0 <= k < |cols| && cols[k].field == f
        ensures f in RowRecord(ctx, row, cols)
      {
        var k :| 0 <= k < |cols| && cols[k].field == f;
        if k < |p| {
          assert p[k] == cols[k];
        }
      }
    }
  }

  /** Each mapped field holds its column's value; a field mapped twice takes the later column's. */
  lemma {:induction false} RowRecordValues(ctx: Context, row: SheetRow, cols: seq<Column>)
    ensures forall k :: 0 <= k < |cols| && (forall j :: k < j < |cols| ==> cols[j].field != cols[k].field) ==>
                        RowRecord(ctx, row, cols)[cols[k].field] == ColumnField(ctx, row, cols[k])
  {
    if cols != [] {
      var p := cols[..|cols| - 1];
      var c := cols[|cols| - 1];
      RowRecordValues(ctx, row, p);
      assert RowRecord(ctx, row, cols) == RowRecord(ctx, row, p)[c.field := ColumnField(ctx, row, c)];
      forall k | 0 <= k < |cols| && (forall j :: k < j < |cols| ==> cols[j].field != cols[k].field)
        ensures RowRecord(ctx, row, cols)[cols[k].field] == ColumnField(ctx, row, cols[k])
      {
        if k < |p| {
          assert p[k] == cols[k];
          assert c.field != cols[k].field;
          forall j | k < j < |p| ensures p[j].field != p[k].field {
            assert p[j] == cols[j];
          }
        }
      }
    }
  }

  /** `fileId` and `rowNumber` keep their initial values unless a column is mapped onto them. */
  lemma {:induction false} RowRecordIdentity(ctx: Context, row: SheetRow, cols: seq<Column>)
    ensures (forall k :: 0 <= k < |cols| ==> cols[k].field != "fileId") ==>
              RowRecord(ctx, row, cols)["fileId"] == FileRef(ctx.fileId)
    ensures (forall k :: 0 <= k < |cols| ==> cols[k].field != "rowNumber") ==>
              RowRecord(ctx, row, cols)["rowNumber"] == Value(Num(row.number as real))
  {
    if cols != [] {
      var p := cols[..|cols| - 1];
      RowRecordIdentity(ctx, row, p);
      if forall k :: 0 <= k < |cols| ==> cols[k].field != "fileId" {
        forall k | 0 <= k < |p| ensures p[k].field != "fileId" {
          assert p[k] == cols[k];
        }
      }
      if forall k :: 0 <= k < |cols| ==> cols[k].field != "rowNumber" {
        forall k | 0 <= k < |p| ensures p[k].field != "rowNumber" {
          assert p[k] == cols[k];
        }
      }
    }
  }

  /**
   * The value a record keeps for a column: the cell value, unless the date
   * rule passes, and then the parsed date, a calendar date of the processing month.
   */
  lemma StoredValueCases(rules: Rules, v: Cell, now: Now)
    ensures !rules.date ==> StoredValue(rules, v, now) == Value(v)
    ensures rules.date && v.Str? ==> (StoredValue(rules, v, now) == Value(v) <==> ValidateAndParseDate(v.s, now).Invalid?)
    ensures rules.date && v.Str? && ValidateAndParseDate(v.s, now).Valid? ==>
              var d := StoredValue(rules, v, now).cell.date;
              && StoredValue(rules, v, now) == Value(Date(d))
              && IsCalendarDate(d) && d.year == now.year && d.month0 == now.month0
              && d.day == DayOf(v.s)
  {
  }

  /**
   * A column mapped to `Verified` holds whether its cell reads "yes", before
   * any rule runs: a required one that is not "yes" is reported as required,
   * it is always numeric, and a date rule on it throws.
   */
  lemma VerifiedCoercion(ctx: Context, row: SheetRow, c: Column)
    requires c.field == "Verified"
    ensures var raw := RawCell(row, ColumnNumber(ctx.headers, c.name));
            && CellValue(ctx, row, c) == Bool(IsYes(raw))
            && (RulesOf(ctx.cfg, c.name).required && !IsYes(raw) ==> RequiredMessage(row.number, c.name) in ColumnErrors(ctx, row, c))
            && NumericMessage(row.number, c.name) !in ColumnErrors(ctx, row, c)
            && (RulesOf(ctx.cfg, c.name).date <==> ColumnThrows(ctx, row, c))
  {
    CellErrorsExactly(row.number, c.name, RulesOf(ctx.cfg, c.name), CellValue(ctx, row, c), ctx.now);
  }

  // ------------------------------------------------------------------ sheets

  /** Row number 1 is the header row, which the row callback returns from at once. */
  predicate IsDataRow(r: SheetRow) {
    r.number != 1
  }

  /** A data row's number and what the column loop made of it. */
  datatype RowOutcome = RowOutcome(number: nat, result: RowResult)

  /** The outcomes of the data rows among `rows`, in row order; the header row has none. */
  function RowOutcomes(ctx: Context, rows: seq<SheetRow>): seq<RowOutcome> {
    if rows == [] then []
    else
      var r := rows[|rows| - 1];
      RowOutcomes(ctx, rows[..|rows| - 1]) + (if IsDataRow(r) then [RowOutcome(r.number, EvaluateRow(ctx, r))] else [])
  }

  /** The sheet's `errors`: the messages of every failing row, in row order. */
  function SheetErrors(outs: seq<RowOutcome>): seq<string> {
    if outs == [] then []
    else
      var o := outs[|outs| - 1];
      SheetErrors(outs[..|outs| - 1]) + (if o.result.Failed? then o.result.errors else [])
  }

  /** The sheet's `data` (and `validData`): the records of the passing rows, in row order. */
  function SheetData(outs: seq<RowOutcome>): seq<Record> {
    if outs == [] then []
    else
      var o := outs[|outs| - 1];
      SheetData(outs[..|outs| - 1]) + (if o.result.Passed? then [o.result.record] else [])
  }

  /** The first row that throws, with its column. */
  function SheetThrow(outs: seq<RowOutcome>): Option<Throw> {
    if outs == [] then None
    else
      var t := SheetThrow(outs[..|outs| - 1]);
      var o := outs[|outs| - 1];
      if t.Some? then t
      else if o.result.Threw? then Some(Throw(o.number, o.result.column))
      else None
  }

  datatype SheetResult = Reported(report: SheetReport) | SheetThrew(at: Throw)

  function SheetContext(cfg: Config, now: Now, fileId: FileId, ws: Worksheet): Context {
    Context(cfg, Headers(ws.header), now, fileId)
  }

  /** One worksheet: the column check, and only when it passes the rows. */
  function EvaluateSheet(cfg: Config, now: Now, fileId: FileId, ws: Worksheet): SheetResult {
    var ctx := SheetContext(cfg, now, fileId, ws);
    var missing := MissingMessages(ws.name, cfg.columns, ctx.headers);
    if missing != [] then Reported(ColumnsMissing(missing))
    else
      var outs := RowOutcomes(ctx, ws.rows);
      match SheetThrow(outs)
      case Some(t) => SheetThrew(t)
      case None => Reported(RowsChecked(SheetErrors(outs), SheetData(outs)))
  }

  /** The outcomes of `a + b` are those of `a`, then those of `b`. */
  lemma {:induction false} RowOutcomesConcat(ctx: Context, a: seq<SheetRow>, b: seq<SheetRow>)
    ensures RowOutcomes(ctx, a + b) == RowOutcomes(ctx, a) + RowOutcomes(ctx, b)
  {
    if b == [] {
      assert a + b == a;
    } else {
      var b' := b[..|b| - 1];
      assert (a + b)[..|a + b| - 1] == a + b';
      RowOutcomesConcat(ctx, a, b');
    }
  }

  lemma {:induction false} SheetThrowConcat(a: seq<RowOutcome>, b: seq<RowOutcome>)
    ensures SheetThrow(a + b) == if SheetThrow(a).Some? then SheetThrow(a) else SheetThrow(b)
  {
    if b == [] {
      assert a + b == a;
    } else {
      var b' := b[..|b| - 1];
      assert (a + b)[..|a + b| - 1] == a + b';
      SheetThrowConcat(a, b');
    }
  }

  /** What one more row adds to the outcomes. */
  lemma RowStep(ctx: Context, rows: seq<SheetRow>, i: nat)
    requires i < |rows|
    ensures RowOutcomes(ctx, rows[..i + 1]) ==
            RowOutcomes(ctx, rows[..i]) + if IsDataRow(rows[i]) then [RowOutcome(rows[i].number, EvaluateRow(ctx, rows[i]))] else []
  {
    assert rows[..i + 1][..i] == rows[..i];
  }

  /** One more outcome for the sheet's errors, data and first throw. */
  lemma OutcomeStep(outs: seq<RowOutcome>, o: RowOutcome)
    ensures SheetErrors(outs + [o]) == SheetErrors(outs) + if o.result.Failed? then o.result.errors else []
    ensures SheetData(outs + [o]) == SheetData(outs) + if o.result.Passed? then [o.result.record] else []
    ensures SheetThrow(outs + [o]) == if SheetThrow(outs).Some? then SheetThrow(outs)
                                      else if o.result.Threw? then Some(Throw(o.number, o.result.column)) else None
  {
    assert (outs + [o])[..|outs|] == outs;
  }

  /**
   * What one pass of the row loop does to the sheet's errors and data, and
   * that a throwing data row is the sheet's first throw. `r` is the row's
   * result when it is a data row.
   */
  lemma SheetStep(ctx: Context, rows: seq<SheetRow>, i: nat, errors: seq<string>, data: seq<Record>, r: RowResult)
    requires i < |rows|
    requires var outs := RowOutcomes(ctx, rows[..i]);
             errors == SheetErrors(outs) && data == SheetData(outs) && SheetThrow(outs) == None
    requires IsDataRow(rows[i]) ==> r == EvaluateRow(ctx, rows[i])
    ensures IsDataRow(rows[i]) && r.Threw? ==> SheetThrow(RowOutcomes(ctx, rows)) == Some(Throw(rows[i].number, r.column))
    ensures !(IsDataRow(rows[i]) && r.Threw?) ==>
              var outs := RowOutcomes(ctx, rows[..i + 1]);
              && SheetErrors(outs) == (if IsDataRow(rows[i]) && r.Failed? then errors + r.errors else errors)
              && SheetData(outs) == (if IsDataRow(rows[i]) && r.Passed? then data + [r.record] else data)
              && SheetThrow(outs) == None
  {
    RowStep(ctx, rows, i);
    var outs := RowOutcomes(ctx, rows[..i]);
    if IsDataRow(rows[i]) {
      var o := RowOutcome(rows[i].number, r);
      OutcomeStep(outs, o);
      if r.Threw? {
        RowOutcomesConcat(ctx, rows[..i + 1], rows[i + 1..]);
        assert rows[..i + 1] + rows[i + 1..] == rows;
        SheetThrowConcat(outs + [o], RowOutcomes(ctx, rows[i + 1..]));
      }
    } else {
      assert outs + [] == outs;
    }
  }

  /** The sheet callback: header index, column check, then the row loop. */
  method ProcessSheet(cfg: Config, now: Now, fileId: FileId, ws: Worksheet) returns (result: SheetResult)
    ensures result == EvaluateSheet(cfg, now, fileId, ws)
  {
    var headers := BuildHeaderIndex(ws.header);
    var sheetErrors := FindMissingColumns(ws.name, cfg.columns, headers);
    if |sheetErrors| > 0 {
      return Reported(ColumnsMissing(sheetErrors));
    }
    var ctx := Context(cfg, headers, now, fileId);
    var errors: seq<string> := [];
    var data: seq<Record> := [];
    var rows := ws.rows;
    var i := 0;
    while i < |rows|
      invariant 0 <= i <= |rows|
      invariant var outs := RowOutcomes(ctx, rows[..i]);
                errors == SheetErrors(outs) && data == SheetData(outs) && SheetThrow(outs) == None
    {
      var row := rows[i];
      var r: RowResult := Failed([]);
      if row.number != 1 {
        r := BuildRow(ctx, row);
      }
      SheetStep(ctx, rows, i, errors, data, r);
      if row.number != 1 {
        if r.Threw? {
          return SheetThrew(Throw(row.number, r.column));
        } else if r.Failed? {
          errors := errors + r.errors;
        } else {
          data := data + [r.record];
        }
      }
      i := i + 1;
    }
    assert rows[..|rows|] == rows;
    return Reported(RowsChecked(errors, data));
  }

  // ---------------------------------------------------- properties of sheets

  /** Errors accumulate in row order: those of `a` come before those of `b`. */
  lemma {:induction false} SheetErrorsConcat(a: seq<RowOutcome>, b: seq<RowOutcome>)
    ensures SheetErrors(a + b) == SheetErrors(a) + SheetErrors(b)
  {
    if b == [] {
      assert a + b == a;
    } else {
      var b' := b[..|b| - 1];
      assert (a + b)[..|a + b| - 1] == a + b';
      SheetErrorsConcat(a, b');
    }
  }

  /** Records accumulate in row order: those of `a` come before those of `b`. */
  lemma {:induction false} SheetDataConcat(a: seq<RowOutcome>, b: seq<RowOutcome>)
    ensures SheetData(a + b) == SheetData(a) + SheetData(b)
  {
    if b == [] {
      assert a + b == a;
    } else {
      var b' := b[..|b| - 1];
      assert (a + b)[..|a + b| - 1] == a + b';
      SheetDataConcat(a, b');
    }
  }

  /** The rows `a`, then `r`, then `b`: the row `r` adds its own outcome, if it is a data row, between theirs. */
  lemma RowInPlace(ctx: Context, a: seq<SheetRow>, r: SheetRow, b: seq<SheetRow>)
    ensures RowOutcomes(ctx, a + [r] + b) ==
            RowOutcomes(ctx, a) + (if IsDataRow(r) then [RowOutcome(r.number, EvaluateRow(ctx, r))] else []) + RowOutcomes(ctx, b)
  {
    RowOutcomesConcat(ctx, a + [r], b);
    RowOutcomesConcat(ctx, a, [r]);
    assert [r][..0] == [];
  }

  /** A row numbered 1, wherever it sits, changes nothing: the sheet evaluates as if it were absent. */
  lemma HeaderRowSkipped(cfg: Config, now: Now, fileId: FileId, ws: Worksheet, a: seq<SheetRow>, r: SheetRow, b: seq<SheetRow>)
    requires r.number == 1
    ensures EvaluateSheet(cfg, now, fileId, ws.(rows := a + [r] + b)) == EvaluateSheet(cfg, now, fileId, ws.(rows := a + b))
  {
    var ctx := SheetContext(cfg, now, fileId, ws);
    RowInPlace(ctx, a, r, b);
    RowOutcomesConcat(ctx, a, b);
    assert RowOutcomes(ctx, a + [r] + b) == RowOutcomes(ctx, a + b);
  }

  /** A failing row's messages are not empty. */
  lemma FailedHasErrors(ctx: Context, row: SheetRow)
    ensures EvaluateRow(ctx, row).Failed? ==> EvaluateRow(ctx, row).errors != []
  {
  }

  /**
   * A data row that does not throw lands in exactly one place: with a
   * message it adds all its messages, in order, and no record; without one
   * it adds its record and no message. (`RowInPlace` says where they go.)
   */
  lemma RowLandsOnce(ctx: Context, r: SheetRow)
    requires IsDataRow(r) && !EvaluateRow(ctx, r).Threw?
    ensures var o := [RowOutcome(r.number, EvaluateRow(ctx, r))];
            && (SheetErrors(o) != []) != (SheetData(o) != [])
            && (SheetErrors(o) != [] ==> SheetErrors(o) == RowErrors(ctx, r, ctx.cfg.columns))
            && (SheetData(o) != [] ==> SheetData(o) == [RowRecord(ctx, r, ctx.cfg.columns)])
  {
    var o := [RowOutcome(r.number, EvaluateRow(ctx, r))];
    assert o[..0] == [];
    FailedHasErrors(ctx, r);
  }

  /** The outcomes are those of the data rows, and only those. */
  lemma {:induction false} RowOutcomesFromRows(ctx: Context, rows: seq<SheetRow>)
    ensures forall o :: o in RowOutcomes(ctx, rows) <==>
              exists j :: 0 <= j < |rows| && IsDataRow(rows[j]) && o == RowOutcome(rows[j].number, EvaluateRow(ctx, rows[j]))
  {
    if rows != [] {
      var p := rows[..|rows| - 1];
      var r := rows[|rows| - 1];
      RowOutcomesFromRows(ctx, p);
      var last := if IsDataRow(r) then [RowOutcome(r.number, EvaluateRow(ctx, r))] else [];
      assert RowOutcomes(ctx, rows) == RowOutcomes(ctx, p) + last;
      forall o | o in RowOutcomes(ctx, rows)
        ensures exists j :: 0 <= j < |rows| && IsDataRow(rows[j]) && o == RowOutcome(rows[j].number, EvaluateRow(ctx, rows[j]))
      {
        if o in RowOutcomes(ctx, p) {
          var j :| 0 <= j < |p| && IsDataRow(p[j]) && o == RowOutcome(p[j].number, EvaluateRow(ctx, p[j]));
          assert rows[j] == p[j];
        } else {
          assert o in last;
        }
      }
      forall o | exists j :: 0 <= j < |rows| && IsDataRow(rows[j]) && o == RowOutcome(rows[j].number, EvaluateRow(ctx, rows[j]))
        ensures o in RowOutcomes(ctx, rows)
      {
        var j :| 0 <= j < |rows| && IsDataRow(rows[j]) && o == RowOutcome(rows[j].number, EvaluateRow(ctx, rows[j]));
        if j < |p| {
          assert p[j] == rows[j];
        }
      }
    }
  }

  /** The data are the records of the passing rows, and only those. */
  lemma {:induction false} SheetDataFromRows(outs: seq<RowOutcome>)
    ensures forall rec :: rec in SheetData(outs) <==> exists j :: 0 <= j < |outs| && outs[j].result == Passed(rec)
  {
    if outs != [] {
      var p := outs[..|outs| - 1];
      var o := outs[|outs| - 1];
      SheetDataFromRows(p);
      var last := if o.result.Passed? then [o.result.record] else [];
      assert SheetData(outs) == SheetData(p) + last;
      forall rec | rec in SheetData(outs)
        ensures exists j :: 0 <= j < |outs| && outs[j].result == Passed(rec)
      {
        if rec in SheetData(p) {
          var j :| 0 <= j < |p| && p[j].result == Passed(rec);
          assert outs[j] == p[j];
        } else {
          assert rec in last;
          assert outs[|outs| - 1].result == Passed(rec);
        }
      }
      forall rec | exists j :: 0 <= j < |outs| && outs[j].result == Passed(rec)
        ensures rec in SheetData(outs)
      {
        var j :| 0 <= j < |outs| && outs[j].result == Passed(rec);
        if j < |p| {
          assert p[j] == outs[j];
        }
      }
    }
  }

  /** The rows are checked to the end exactly when no row throws; otherwise the first that does is reported. */
  lemma {:induction false} SheetThrowFirst(outs: seq<RowOutcome>)
    ensures SheetThrow(outs) == None <==> forall j :: 0 <= j < |outs| ==> !outs[j].result.Threw?
    ensures SheetThrow(outs).Some? ==>
              exists j :: && 0 <= j < |outs|
                          && outs[j].result == Threw(SheetThrow(outs).value.column)
                          && outs[j].number == SheetThrow(outs).value.row
                          && forall i :: 0 <= i < j ==> !outs[i].result.Threw?
  {
    if outs != [] {
      var p := outs[..|outs| - 1];
      SheetThrowFirst(p);
      if SheetThrow(p).Some? {
        var j :| && 0 <= j < |p|
                 && p[j].result == Threw(SheetThrow(p).value.column)
                 && p[j].number == SheetThrow(p).value.row
                 && forall i :: 0 <= i < j ==> !p[i].result.Threw?;
        assert outs[j] == p[j];
        forall i | 0 <= i < j ensures !outs[i].result.Threw? {
          assert outs[i] == p[i];
        }
      } else {
        forall i | 0 <= i < |p| ensures !outs[i].result.Threw? {
          assert outs[i] == p[i];
        }
      }
    }
  }

  /**
   * A sheet with a missing column reports exactly the missing-column
   * messages, whatever its rows hold: none of them is examined.
   */
  lemma ShortCircuit(cfg: Config, now: Now, fileId: FileId, ws: Worksheet, otherRows: seq<SheetRow>)
    requires exists k :: 0 <= k < |cfg.columns| && !HasColumn(Headers(ws.header), cfg.columns[k].name)
    ensures var missing := MissingMessages(ws.name, cfg.columns, Headers(ws.header));
            && missing != []
            && EvaluateSheet(cfg, now, fileId, ws) == Reported(ColumnsMissing(missing))
            && EvaluateSheet(cfg, now, fileId, ws.(rows := otherRows)) == EvaluateSheet(cfg, now, fileId, ws)
  {
    MissingMessagesExactly(ws.name, cfg.columns, Headers(ws.header));
  }

  // ------------------------------------------------------------------ upload

  /** A worksheet's name and what the sheet callback made of it. */
  datatype SheetOutcome = SheetOutcome(name: string, result: SheetResult)

  /** The outcomes of the sheets `book`, in workbook order. */
  function SheetOutcomes(cfg: Config, now: Now, fileId: FileId, book: seq<Worksheet>): seq<SheetOutcome> {
    if book == [] then []
    else
      var ws := book[|book| - 1];
      SheetOutcomes(cfg, now, fileId, book[..|book| - 1]) + [SheetOutcome(ws.name, EvaluateSheet(cfg, now, fileId, ws))]
  }

  /** Writing a sheet's report under its name, and for checked rows also its data as the name's valid data. */
  function Store(resp: Response, name: string, report: SheetReport): Response {
    match report
    case ColumnsMissing(_) => Response(resp.sheets[name := report], resp.validData)
    case RowsChecked(_, data) => Response(resp.sheets[name := report], resp.validData[name := data])
  }

  /** The response built from the outcomes `outs` in order; the first throwing sheet ends the upload. */
  function Collect(outs: seq<SheetOutcome>): Upload {
    if outs == [] then Responded(Response(map[], map[]))
    else
      var o := outs[|outs| - 1];
      match Collect(outs[..|outs| - 1])
      case Crashed(sheet, at) => Crashed(sheet, at)
      case Responded(resp) =>
        match o.result
        case SheetThrew(at) => Crashed(o.name, at)
        case Reported(report) => Responded(Store(resp, o.name, report))
  }

  /** The upload of the sheets `book`. */
  function Ingest(cfg: Config, now: Now, fileId: FileId, book: seq<Worksheet>): Upload {
    Collect(SheetOutcomes(cfg, now, fileId, book))
  }

  /** The outcome of every sheet is its name with its evaluation. */
  lemma {:induction false} SheetOutcomesOfBook(cfg: Config, now: Now, fileId: FileId, book: seq<Worksheet>)
    ensures var outs := SheetOutcomes(cfg, now, fileId, book);
            && |outs| == |book|
            && forall i :: 0 <= i < |book| ==> outs[i] == SheetOutcome(book[i].name, EvaluateSheet(cfg, now, fileId, book[i]))
  {
    if book != [] {
      var p := book[..|book| - 1];
      SheetOutcomesOfBook(cfg, now, fileId, p);
      forall i | 0 <= i < |p| ensures p[i] == book[i] { }
    }
  }

  lemma {:induction false} SheetOutcomesConcat(cfg: Config, now: Now, fileId: FileId, a: seq<Worksheet>, b: seq<Worksheet>)
    ensures SheetOutcomes(cfg, now, fileId, a + b) == SheetOutcomes(cfg, now, fileId, a) + SheetOutcomes(cfg, now, fileId, b)
  {
    if b == [] {
      assert a + b == a;
    } else {
      var b' := b[..|b| - 1];
      assert (a + b)[..|a + b| - 1] == a + b';
      SheetOutcomesConcat(cfg, now, fileId, a, b');
    }
  }

  /** Once a sheet has thrown, later sheets change nothing. */
  lemma {:induction false} CollectCrashPersists(a: seq<SheetOutcome>, b: seq<SheetOutcome>)
    requires Collect(a).Crashed?
    ensures Collect(a + b) == Collect(a)
  {
    if b == [] {
      assert a + b == a;
    } else {
      var b' := b[..|b| - 1];
      assert (a + b)[..|a + b| - 1] == a + b';
      CollectCrashPersists(a, b');
    }
  }

  /** What one pass of the sheet loop does: a throwing sheet ends the upload, a reporting one is stored. */
  lemma UploadStep(cfg: Config, now: Now, fileId: FileId, book: seq<Worksheet>, i: nat, resp: Response, result: SheetResult)
    requires i < |book|
    requires Ingest(cfg, now, fileId, book[..i]) == Responded(resp)
    requires result == EvaluateSheet(cfg, now, fileId, book[i])
    ensures result.SheetThrew? ==> Ingest(cfg, now, fileId, book) == Crashed(book[i].name, result.at)
    ensures result.Reported? ==> Ingest(cfg, now, fileId, book[..i + 1]) == Responded(Store(resp, book[i].name, result.report))
  {
    var outs := SheetOutcomes(cfg, now, fileId, book[..i]);
    var o := SheetOutcome(book[i].name, result);
    assert book[..i + 1][..i] == book[..i] && book[..i + 1][i] == book[i];
    assert SheetOutcomes(cfg, now, fileId, book[..i + 1]) == outs + [o];
    assert (outs + [o])[..|outs|] == outs;
    if result.SheetThrew? {
      SheetOutcomesConcat(cfg, now, fileId, book[..i + 1], book[i + 1..]);
      assert book[..i + 1] + book[i + 1..] == book;
      CollectCrashPersists(outs + [o], SheetOutcomes(cfg, now, fileId, book[i + 1..]));
    }
  }

  /**
   * The pipeline of `uploadFile` from the empty response to the answer, for
   * the workbook `book`, the configuration, the processing month and the file entry.
   */
  method UploadFile(cfg: Config, now: Now, fileId: FileId, book: seq<Worksheet>) returns (upload: Upload)
    ensures upload == Ingest(cfg, now, fileId, book)
  {
    var sheets: map<string, SheetReport> := map[];
    var validData: map<string, seq<Record>> := map[];
    var i := 0;
    while i < |book|
      invariant 0 <= i <= |book|
      invariant Ingest(cfg, now, fileId, book[..i]) == Responded(Response(sheets, validData))
    {
      var ws := book[i];
      var result := ProcessSheet(cfg, now, fileId, ws);
      UploadStep(cfg, now, fileId, book, i, Response(sheets, validData), result);
      if result.SheetThrew? {
        return Crashed(ws.name, result.at);
      }
      var report := result.report;
      sheets := sheets[ws.name := report];
      if report.RowsChecked? {
        validData := validData[ws.name := report.data];
      }
      i := i + 1;
    }
    assert book[..|book|] == book;
    return Responded(Response(sheets, validData));
  }

  // ---------------------------------------------------- properties of uploads

  /**
   * Every sheet with checked rows has its data as its `validData` entry, and
   * only a reported sheet's name can be a key of `validData` (with a repeated
   * name, a later missing-column report keeps an earlier entry).
   */
  predicate Consistent(resp: Response) {
    && (forall n :: n in resp.validData ==> n in resp.sheets)
    && (forall n :: n in resp.sheets && resp.sheets[n].RowsChecked? ==>
                      n in resp.validData && resp.validData[n] == resp.sheets[n].data)
  }

  /** Storing a sheet's report keeps the response consistent and changes nothing for other sheets. */
  lemma StoreKeepsConsistent(resp: Response, name: string, report: SheetReport)
    requires Consistent(resp)
    ensures var r := Store(resp, name, report);
            && Consistent(r)
            && r.sheets.Keys == resp.sheets.Keys + {name} && r.sheets[name] == report
            && (report.RowsChecked? ==> r.validData[name] == report.data)
            && (report.ColumnsMissing? ==> r.validData == resp.validData)
            && forall n :: n != name ==>
                 && (n in r.sheets <==> n in resp.sheets) && (n in r.validData <==> n in resp.validData)
                 && (n in resp.sheets ==> r.sheets[n] == resp.sheets[n])
                 && (n in resp.validData ==> r.validData[n] == resp.validData[n])
  {
  }

  /** Without a throw, the data of every sheet with checked rows are its `validData` entry, and only reported names have one. */
  lemma {:induction false} CollectConsistent(outs: seq<SheetOutcome>)
    ensures Collect(outs).Responded? ==> Consistent(Collect(outs).response)
  {
    if outs != [] {
      var p := outs[..|outs| - 1];
      var o := outs[|outs| - 1];
      CollectConsistent(p);
      if Collect(outs).Responded? {
        var resp := Collect(p).response;
        StoreKeepsConsistent(resp, o.name, o.result.report);
      }
    }
  }

  /** Without a throw, the response has one entry per sheet name. */
  lemma {:induction false} CollectNames(outs: seq<SheetOutcome>)
    ensures var u := Collect(outs);
            u.Responded? ==> forall n :: n in u.response.sheets <==> exists i :: 0 <= i < |outs| && outs[i].name == n
  {
    if outs != [] {
      var p := outs[..|outs| - 1];
      var o := outs[|outs| - 1];
      CollectNames(p);
      var u := Collect(outs);
      if u.Responded? {
        var resp := Collect(p).response;
        assert u.response.sheets == resp.sheets[o.name := o.result.report];
        forall n ensures n in u.response.sheets <==> exists i :: 0 <= i < |outs| && outs[i].name == n {
          if n in u.response.sheets && n != o.name {
            var i :| 0 <= i < |p| && p[i].name == n;
            assert outs[i] == p[i];
          }
          if exists i :: 0 <= i < |outs| && outs[i].name == n {
            var i :| 0 <= i < |outs| && outs[i].name == n;
            if i < |p| {
              assert p[i] == outs[i];
            }
          }
        }
      }
    }
  }

  /**
   * The upload fails exactly when some sheet throws, and then it names the
   * first such sheet with its row and column; the sheets before it all reported.
   */
  lemma {:induction false} CollectCrashIff(outs: seq<SheetOutcome>)
    ensures Collect(outs).Crashed? <==> exists i :: 0 <= i < |outs| && outs[i].result.SheetThrew?
    ensures var u := Collect(outs);
            u.Crashed? ==>
              exists i :: && 0 <= i < |outs| && outs[i] == SheetOutcome(u.sheet, SheetThrew(u.at))
                          && forall j :: 0 <= j < i ==> outs[j].result.Reported?
  {
    if outs != [] {
      var p := outs[..|outs| - 1];
      CollectCrashIff(p);
      var u := Collect(p);
      if u.Crashed? {
        var i :| && 0 <= i < |p| && p[i] == SheetOutcome(u.sheet, SheetThrew(u.at))
                 && forall j :: 0 <= j < i ==> p[j].result.Reported?;
        assert outs[i] == p[i];
        forall j | 0 <= j < i ensures outs[j].result.Reported? {
          assert outs[j] == p[j];
        }
      } else {
        forall j | 0 <= j < |p| ensures outs[j].result.Reported? {
          assert outs[j] == p[j];
        }
      }
    }
  }

  /** Sheet names are distinct, as the names of a workbook's sheets are. */
  predicate DistinctNames(outs: seq<SheetOutcome>) {
    forall i, j :: 0 <= i < j < |outs| ==> outs[i].name != outs[j].name
  }

  /**
   * With distinct names, every sheet's entry is its own report, and it has
   * `validData` exactly when its rows were checked (a sheet with missing
   * columns has none).
   */
  lemma {:induction false} CollectPerSheet(outs: seq<SheetOutcome>)
    requires DistinctNames(outs)
    ensures var u := Collect(outs);
            u.Responded? ==>
              forall i :: 0 <= i < |outs| ==>
                && outs[i].name in u.response.sheets
                && outs[i].result == Reported(u.response.sheets[outs[i].name])
                && (outs[i].name in u.response.validData <==> u.response.sheets[outs[i].name].RowsChecked?)
  {
    if outs != [] {
      var p := outs[..|outs| - 1];
      var o := outs[|outs| - 1];
      assert DistinctNames(p) by {
        forall i, j | 0 <= i < j < |p| ensures p[i].name != p[j].name {
          assert p[i] == outs[i] && p[j] == outs[j];
        }
      }
      CollectPerSheet(p);
      CollectConsistent(p);
      CollectNames(p);
      var u := Collect(outs);
      if u.Responded? {
        var resp := Collect(p).response;
        assert o.result.Reported? && u.response == Store(resp, o.name, o.result.report);
        StoreKeepsConsistent(resp, o.name, o.result.report);
        assert o.name !in resp.sheets by {
          forall i | 0 <= i < |p| ensures p[i].name != o.name {
            assert p[i] == outs[i];
          }
        }
        forall i | 0 <= i < |outs|
          ensures && outs[i].name in u.response.sheets
                  && outs[i].result == Reported(u.response.sheets[outs[i].name])
                  && (outs[i].name in u.response.validData <==> u.response.sheets[outs[i].name].RowsChecked?)
        {
          if i < |p| {
            var n := outs[i].name;
            assert outs[i] == p[i];
            assert n != o.name;
            assert n in resp.sheets && p[i].result == Reported(resp.sheets[n]);
            assert u.response.sheets[n] == resp.sheets[n];
            assert n in u.response.validData <==> n in resp.validData;
          }
        }
      }
    }
  }

  // ------------------------------------------------------ the workbook's view

  /**
   * Without a throw, the response has one entry per worksheet name, and the
   * data of every sheet with checked rows are exactly its `validData`.
   */
  lemma IngestConsistent(cfg: Config, now: Now, fileId: FileId, book: seq<Worksheet>)
    ensures var u := Ingest(cfg, now, fileId, book);
            u.Responded? ==>
              && Consistent(u.response)
              && forall n :: n in u.response.sheets <==> exists i :: 0 <= i < |book| && book[i].name == n
  {
    var outs := SheetOutcomes(cfg, now, fileId, book);
    SheetOutcomesOfBook(cfg, now, fileId, book);
    CollectConsistent(outs);
    CollectNames(outs);
    forall i | 0 <= i < |book| ensures outs[i].name == book[i].name { }
  }

  /** The upload fails exactly when some worksheet throws. */
  lemma IngestCrashIff(cfg: Config, now: Now, fileId: FileId, book: seq<Worksheet>)
    ensures Ingest(cfg, now, fileId, book).Crashed? <==>
            exists i :: 0 <= i < |book| && EvaluateSheet(cfg, now, fileId, book[i]).SheetThrew?
  {
    var outs := SheetOutcomes(cfg, now, fileId, book);
    SheetOutcomesOfBook(cfg, now, fileId, book);
    CollectCrashIff(outs);
    forall i | 0 <= i < |book| ensures outs[i].result == EvaluateSheet(cfg, now, fileId, book[i]) { }
  }

  /** A failed upload names the first worksheet that throws, with its row and column; the sheets before it all reported. */
  lemma IngestCrashFirst(cfg: Config, now: Now, fileId: FileId, book: seq<Worksheet>)
    ensures var u := Ingest(cfg, now, fileId, book);
            u.Crashed? ==>
              exists i :: && 0 <= i < |book| && book[i].name == u.sheet
                          && EvaluateSheet(cfg, now, fileId, book[i]) == SheetThrew(u.at)
                          && forall j :: 0 <= j < i ==> EvaluateSheet(cfg, now, fileId, book[j]).Reported?
  {
    var outs := SheetOutcomes(cfg, now, fileId, book);
    SheetOutcomesOfBook(cfg, now, fileId, book);
    CollectCrashIff(outs);
    var u := Collect(outs);
    if u.Crashed? {
      var i :| && 0 <= i < |outs| && outs[i] == SheetOutcome(u.sheet, SheetThrew(u.at))
               && forall j :: 0 <= j < i ==> outs[j].result.Reported?;
      forall j | 0 <= j < i ensures EvaluateSheet(cfg, now, fileId, book[j]).Reported? {
        assert outs[j].result.Reported?;
      }
    }
  }

  /** Worksheet names are distinct, as the names of a workbook's sheets are. */
  predicate DistinctSheetNames(book: seq<Worksheet>) {
    forall i, j :: 0 <= i < j < |book| ==> book[i].name != book[j].name
  }

  /**
   * With distinct names, every worksheet's entry is its own report, and it
   * has `validData` exactly when its rows were checked (a sheet with missing
   * columns has none).
   */
  lemma IngestPerSheet(cfg: Config, now: Now, fileId: FileId, book: seq<Worksheet>)
    requires DistinctSheetNames(book)
    ensures var u := Ingest(cfg, now, fileId, book);
            u.Responded? ==>
              forall i :: 0 <= i < |book| ==>
                && book[i].name in u.response.sheets
                && EvaluateSheet(cfg, now, fileId, book[i]) == Reported(u.response.sheets[book[i].name])
                && (book[i].name in u.response.validData <==> u.response.sheets[book[i].name].RowsChecked?)
  {
    var outs := SheetOutcomes(cfg, now, fileId, book);
    SheetOutcomesOfBook(cfg, now, fileId, book);
    assert DistinctNames(outs) by {
      forall i, j | 0 <= i < j < |outs| ensures outs[i].name != outs[j].name {
        assert outs[i].name == book[i].name && outs[j].name == book[j].name;
      }
    }
    CollectPerSheet(outs);
    var u := Collect(outs);
    if u.Responded? {
      forall i | 0 <= i < |book|
        ensures && book[i].name in u.response.sheets
                && EvaluateSheet(cfg, now, fileId, book[i]) == Reported(u.response.sheets[book[i].name])
                && (book[i].name in u.response.validData <==> u.response.sheets[book[i].name].RowsChecked?)
      {
        assert outs[i] == SheetOutcome(book[i].name, EvaluateSheet(cfg, now, fileId, book[i]));
      }
    }
  }
}
