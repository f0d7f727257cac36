/**
 * One upload worked through end to end: a single worksheet "Sales" whose
 * header row holds every configured column, and three data rows of which
 * row 2 passes, row 3 has a non-numeric amount and row 4 lacks a name.
 */
module Scenario {
  import opened Text
  import opened Cells
  import opened JsDate
  import opened DateFormat
  import opened FileController

  /** Name, Amount, Date and Verified mapped to record fields; Verified carries no rule. */
  function SalesConfig(): Config {
    Config([Column("Name", "name"), Column("Amount", "amount"), Column("Date", "date"), Column("Verified", "Verified")],
           map["Name" := Rules(true, false, false), "Amount" := Rules(true, true, false), "Date" := Rules(true, false, true)])
  }

  function SalesHeader(): seq<HeaderCell> {
    [HeaderCell(1, "Row"), HeaderCell(2, "Name"), HeaderCell(3, "Amount"), HeaderCell(4, "Date"), HeaderCell(5, "Verified")]
  }

  function SalesIndex(): map<string, nat> {
    map["Row" := 1, "Name" := 2, "Amount" := 3, "Date" := 4, "Verified" := 5]
  }

  /** Row 1 as the workbook reader returns it: the header texts in their cells. */
  function HeaderRow(): SheetRow {
    SheetRow(1, map[1 := Str("Row"), 2 := Str("Name"), 3 := Str("Amount"), 4 := Str("Date"), 5 := Str("Verified")])
  }

  function GoodRow(): SheetRow {
    SheetRow(2, map[1 := Num(1.0), 2 := Str("Asha"), 3 := Num(250.0), 4 := Str("15-06-2024")])
  }

  function TextAmountRow(): SheetRow {
    SheetRow(3, map[1 := Num(2.0), 2 := Str("Ravi"), 3 := Str("abc"), 4 := Str("15-06-2024")])
  }

  function NamelessRow(): SheetRow {
    SheetRow(4, map[1 := Num(3.0), 3 := Num(75.0), 4 := Str("15-06-2024")])
  }

  function SalesSheet(): Worksheet {
    Worksheet("Sales", SalesHeader(), [HeaderRow(), GoodRow(), TextAmountRow(), NamelessRow()])
  }

  const June2024: Now := Now(2024, 5)

  function SalesContext(): Context {
    Context(SalesConfig(), SalesIndex(), June2024, "file-1")
  }

  // ------------------------------------------------------------ header row

  lemma HeadersStep(h: seq<HeaderCell>, k: nat)
    requires k < |h|
    ensures Headers(h[..k + 1]) == Headers(h[..k])[h[k].text := h[k].col]
  {
    assert h[..k + 1][..k] == h[..k];
  }

  /** The header row indexes every header text at its column, and the sheet's rows are read against that index. */
  lemma SalesHeaders()
    ensures Headers(SalesHeader()) == SalesIndex()
    ensures SheetContext(SalesConfig(), June2024, "file-1", SalesSheet()) == SalesContext()
  {
    var h := SalesHeader();
    assert h[..0] == [];
    HeadersStep(h, 0);
    HeadersStep(h, 1);
    HeadersStep(h, 2);
    HeadersStep(h, 3);
    HeadersStep(h, 4);
    assert h[..5] == h;
  }

  /** Every configured column is present, so the sheet's rows are checked. */
  lemma SalesColumnsPresent()
    ensures MissingMessages("Sales", SalesConfig().columns, SalesIndex()) == []
  {
    MissingMessagesExactly("Sales", SalesConfig().columns, SalesIndex());
  }

  // ---------------------------------------------------------------- columns

  /** The Name column (required) reports a missing name and nothing else. */
  lemma NameColumn(ctx: Context, row: SheetRow)
    requires ctx == SalesContext()
    ensures var raw := RawCell(row, 2);
            && ColumnErrors(ctx, row, Column("Name", "name")) == (if IsFalsy(raw) then [RequiredMessage(row.number, "Name")] else [])
            && !ColumnThrows(ctx, row, Column("Name", "name"))
  {
    assert CellValue(ctx, row, Column("Name", "name")) == RawCell(row, 2);
    assert RulesOf(ctx.cfg, "Name") == Rules(true, false, false);
  }

  /** The Amount column (required, numeric) reports a falsy amount and a non-numeric one. */
  lemma AmountColumn(ctx: Context, row: SheetRow)
    requires ctx == SalesContext()
    ensures var raw := RawCell(row, 3);
            && ColumnErrors(ctx, row, Column("Amount", "amount")) ==
               (if IsFalsy(raw) then [RequiredMessage(row.number, "Amount")] else [])
               + (if IsNaNNumber(raw) then [NumericMessage(row.number, "Amount")] else [])
            && !ColumnThrows(ctx, row, Column("Amount", "amount"))
  {
    assert CellValue(ctx, row, Column("Amount", "amount")) == RawCell(row, 3);
    assert RulesOf(ctx.cfg, "Amount") == Rules(true, true, false);
  }

  /** A required date column holding text the validator accepts neither reports nor throws. */
  lemma AcceptedDateColumn(ctx: Context, row: SheetRow, c: Column, text: string)
    requires RulesOf(ctx.cfg, c.name) == Rules(true, false, true)
    requires CellValue(ctx, row, c) == Str(text) && text != ""
    requires ValidateAndParseDate(text, ctx.now).Valid?
    ensures ColumnErrors(ctx, row, c) == [] && !ColumnThrows(ctx, row, c)
  {
  }

  /** The Date column (required, date) accepts a June 2024 date in June 2024. */
  lemma DateColumn(ctx: Context, row: SheetRow)
    requires ctx == SalesContext()
    requires RawCell(row, 4) == Str("15-06-2024")
    ensures ColumnErrors(ctx, row, Column("Date", "date")) == []
    ensures !ColumnThrows(ctx, row, Column("Date", "date"))
  {
    var c := Column("Date", "date");
    var text := RawCell(row, 4).s;
    assert CellValue(ctx, row, c) == Str(text);
    assert RulesOf(ctx.cfg, c.name) == Rules(true, false, true);
    JuneDatePasses();
    AcceptedDateColumn(ctx, row, c, text);
  }

  /** The Verified column has no rule: it never reports and never throws. */
  lemma VerifiedColumn(ctx: Context, row: SheetRow)
    requires ctx == SalesContext()
    ensures ColumnErrors(ctx, row, Column("Verified", "Verified")) == []
    ensures !ColumnThrows(ctx, row, Column("Verified", "Verified"))
  {
    assert RulesOf(ctx.cfg, "Verified") == Rules(false, false, false);
  }

  // ------------------------------------------------------------------- rows

  /** Four columns, one after the other: the messages concatenate, and the first throw is the first throwing column's. */
  lemma FourColumns(ctx: Context, row: SheetRow, cols: seq<Column>)
    requires |cols| == 4
    ensures RowErrors(ctx, row, cols) == ColumnErrors(ctx, row, cols[0]) + ColumnErrors(ctx, row, cols[1])
                                         + ColumnErrors(ctx, row, cols[2]) + ColumnErrors(ctx, row, cols[3])
    ensures (!ColumnThrows(ctx, row, cols[0]) && !ColumnThrows(ctx, row, cols[1])
             && !ColumnThrows(ctx, row, cols[2]) && !ColumnThrows(ctx, row, cols[3]))
            ==> RowThrow(ctx, row, cols) == None
  {
    var e := ColumnErrors(ctx, row, cols[0]);
    assert cols[..1][..0] == [] && cols[..1][0] == cols[0];
    assert RowErrors(ctx, row, cols[..1]) == [] + e == e;
    assert cols[..2][..1] == cols[..1] && cols[..2][1] == cols[1];
    assert cols[..3][..2] == cols[..2] && cols[..3][2] == cols[2];
    assert cols[..3] == cols[..|cols| - 1];
    assert RowErrors(ctx, row, cols[..2]) == e + ColumnErrors(ctx, row, cols[1]);
    assert RowErrors(ctx, row, cols[..3]) == e + ColumnErrors(ctx, row, cols[1]) + ColumnErrors(ctx, row, cols[2]);
    if !ColumnThrows(ctx, row, cols[0]) && !ColumnThrows(ctx, row, cols[1]) && !ColumnThrows(ctx, row, cols[2]) {
      assert RowThrow(ctx, row, cols[..1]) == None;
      assert RowThrow(ctx, row, cols[..2]) == None;
      assert RowThrow(ctx, row, cols[..3]) == None;
    }
  }

  /** Four columns of which only the first two can report and none throws: the row's outcome rests on those two. */
  lemma TwoOfFourReport(ctx: Context, row: SheetRow)
    requires |ctx.cfg.columns| == 4
    requires !ColumnThrows(ctx, row, ctx.cfg.columns[0]) && !ColumnThrows(ctx, row, ctx.cfg.columns[1])
    requires !ColumnThrows(ctx, row, ctx.cfg.columns[2]) && !ColumnThrows(ctx, row, ctx.cfg.columns[3])
    requires ColumnErrors(ctx, row, ctx.cfg.columns[2]) == [] && ColumnErrors(ctx, row, ctx.cfg.columns[3]) == []
    ensures var cols := ctx.cfg.columns;
            var errors := ColumnErrors(ctx, row, cols[0]) + ColumnErrors(ctx, row, cols[1]);
            EvaluateRow(ctx, row) == if errors == [] then Passed(RowRecord(ctx, row, cols)) else Failed(errors)
  {
    var cols := ctx.cfg.columns;
    FourColumns(ctx, row, cols);
    assert ColumnErrors(ctx, row, cols[0]) + ColumnErrors(ctx, row, cols[1]) + [] + [] ==
           ColumnErrors(ctx, row, cols[0]) + ColumnErrors(ctx, row, cols[1]);
  }

  /** A row with this month's date throws nowhere, and reports the Name messages, then the Amount messages. */
  lemma SalesRow(ctx: Context, row: SheetRow)
    requires ctx == SalesContext()
    requires RawCell(row, 4) == Str("15-06-2024")
    ensures var errors := ColumnErrors(ctx, row, Column("Name", "name")) + ColumnErrors(ctx, row, Column("Amount", "amount"));
            EvaluateRow(ctx, row) == if errors == [] then Passed(RowRecord(ctx, row, ctx.cfg.columns)) else Failed(errors)
  {
    var cols := ctx.cfg.columns;
    assert cols[0] == Column("Name", "name");
    assert cols[1] == Column("Amount", "amount");
    assert cols[2] == Column("Date", "date");
    assert cols[3] == Column("Verified", "Verified");
    DateColumn(ctx, row);
    VerifiedColumn(ctx, row);
    NameColumn(ctx, row);
    AmountColumn(ctx, row);
    TwoOfFourReport(ctx, row);
  }

  /** A row with a name, a numeric amount and this month's date passes, and yields its record. */
  lemma CompleteRowPasses(ctx: Context, row: SheetRow)
    requires ctx == SalesContext() && RawCell(row, 4) == Str("15-06-2024")
    requires !IsFalsy(RawCell(row, 2)) && !IsFalsy(RawCell(row, 3)) && !IsNaNNumber(RawCell(row, 3))
    ensures EvaluateRow(ctx, row).Passed?
    ensures EvaluateRow(ctx, row).record["rowNumber"] == Value(Num(row.number as real))
  {
    SalesRow(ctx, row);
    NameColumn(ctx, row);
    AmountColumn(ctx, row);
    NoColumnOnRowNumber(ctx, row);
  }

  /** No configured column writes the `rowNumber` field, so the record keeps the row's number. */
  lemma NoColumnOnRowNumber(ctx: Context, row: SheetRow)
    requires ctx == SalesContext()
    ensures RowRecord(ctx, row, ctx.cfg.columns)["rowNumber"] == Value(Num(row.number as real))
  {
    var cols := ctx.cfg.columns;
    assert forall k :: 0 <= k < |cols| ==> cols[k].field != "rowNumber";
    RowRecordIdentity(ctx, row, cols);
  }

  /** Row 2 has a name, a numeric amount and this month's date. */
  lemma GoodCells(row: SheetRow)
    requires row == GoodRow()
    ensures row.number == 2 && RawCell(row, 4) == Str("15-06-2024")
    ensures !IsFalsy(RawCell(row, 2)) && !IsFalsy(RawCell(row, 3)) && !IsNaNNumber(RawCell(row, 3))
  {
    assert RawCell(row, 2) == Str("Asha") && RawCell(row, 3) == Num(250.0);
  }

  lemma GoodRowPasses(ctx: Context, row: SheetRow)
    requires ctx == SalesContext() && row == GoodRow()
    ensures EvaluateRow(ctx, row).Passed? && EvaluateRow(ctx, row).record["rowNumber"] == Value(Num(2.0))
  {
    GoodCells(row);
    CompleteRowPasses(ctx, row);
  }

  /** A row with a name, a non-empty text amount that is not a number and this month's date fails on the amount only. */
  lemma NonNumericAmountFails(ctx: Context, row: SheetRow)
    requires ctx == SalesContext() && RawCell(row, 4) == Str("15-06-2024")
    requires !IsFalsy(RawCell(row, 2)) && !IsFalsy(RawCell(row, 3)) && IsNaNNumber(RawCell(row, 3))
    ensures EvaluateRow(ctx, row) == Failed([NumericMessage(row.number, "Amount")])
  {
    SalesRow(ctx, row);
    NameColumn(ctx, row);
    AmountColumn(ctx, row);
    assert ColumnErrors(ctx, row, Column("Name", "name")) == [];
    assert ColumnErrors(ctx, row, Column("Amount", "amount")) == [NumericMessage(row.number, "Amount")];
  }

  /** Row 3 has a name, the text "abc" as its amount, and this month's date. */
  lemma TextAmountCells(row: SheetRow)
    requires row == TextAmountRow()
    ensures row.number == 3 && RawCell(row, 4) == Str("15-06-2024")
    ensures !IsFalsy(RawCell(row, 2)) && RawCell(row, 3) == Str("abc")
  {
    assert RawCell(row, 2) == Str("Ravi");
  }

  lemma TextAmountRowFails(ctx: Context, row: SheetRow)
    requires ctx == SalesContext() && row == TextAmountRow()
    ensures EvaluateRow(ctx, row) == Failed([NumericMessage(3, "Amount")])
  {
    TextAmountCells(row);
    var amount := RawCell(row, 3).s;
    LetterTextIsNaN(amount);
    NonNumericAmountFails(ctx, row);
  }

  /** Row 4 has no name, a numeric amount and this month's date. */
  lemma NamelessCells(row: SheetRow)
    requires row == NamelessRow()
    ensures row.number == 4 && RawCell(row, 4) == Str("15-06-2024")
    ensures IsFalsy(RawCell(row, 2)) && !IsFalsy(RawCell(row, 3)) && !IsNaNNumber(RawCell(row, 3))
  {
    assert RawCell(row, 2) == Null && RawCell(row, 3) == Num(75.0);
  }

  lemma NamelessRowFails(ctx: Context, row: SheetRow)
    requires ctx == SalesContext() && row == NamelessRow()
    ensures EvaluateRow(ctx, row) == Failed([RequiredMessage(4, "Name")])
  {
    NamelessCells(row);
    SalesRow(ctx, row);
    NameColumn(ctx, row);
    AmountColumn(ctx, row);
  }

  // ------------------------------------------------------------------ sheet

  /**
   * A sheet of a header row and three data rows, every column present, whose
   * first data row passes and whose other two fail: the report holds the two
   * failing rows' messages in row order and the passing row's record.
   */
  lemma SheetOfThree(cfg: Config, now: Now, fileId: FileId, ws: Worksheet, e3: seq<string>, e4: seq<string>)
    requires MissingMessages(ws.name, cfg.columns, Headers(ws.header)) == []
    requires |ws.rows| == 4 && ws.rows[0].number == 1
    requires var ctx := SheetContext(cfg, now, fileId, ws);
             && ws.rows[1].number != 1 && ws.rows[2].number != 1 && ws.rows[3].number != 1
             && EvaluateRow(ctx, ws.rows[1]).Passed?
             && EvaluateRow(ctx, ws.rows[2]) == Failed(e3) && EvaluateRow(ctx, ws.rows[3]) == Failed(e4)
    ensures EvaluateSheet(cfg, now, fileId, ws) ==
            Reported(RowsChecked(e3 + e4, [EvaluateRow(SheetContext(cfg, now, fileId, ws), ws.rows[1]).record]))
  {
    var ctx := SheetContext(cfg, now, fileId, ws);
    var rows := ws.rows;
    var o2 := RowOutcome(rows[1].number, EvaluateRow(ctx, rows[1]));
    var o3 := RowOutcome(rows[2].number, Failed(e3));
    var o4 := RowOutcome(rows[3].number, Failed(e4));
    assert rows[..0] == [];
    RowStep(ctx, rows, 0);
    assert RowOutcomes(ctx, rows[..1]) == [];
    RowStep(ctx, rows, 1);
    assert RowOutcomes(ctx, rows[..2]) == [o2];
    RowStep(ctx, rows, 2);
    assert RowOutcomes(ctx, rows[..3]) == [o2, o3];
    RowStep(ctx, rows, 3);
    assert rows[..4] == rows;
    assert RowOutcomes(ctx, rows) == [o2, o3, o4];
    ThreeOutcomes(o2, o3, o4);
  }

  /** Three outcomes, a passing one then two failing ones: their messages in order, the one record, no throw. */
  lemma ThreeOutcomes(o2: RowOutcome, o3: RowOutcome, o4: RowOutcome)
    requires o2.result.Passed? && o3.result.Failed? && o4.result.Failed?
    ensures SheetErrors([o2, o3, o4]) == o3.result.errors + o4.result.errors
    ensures SheetData([o2, o3, o4]) == [o2.result.record]
    ensures SheetThrow([o2, o3, o4]) == None
  {
    var none: seq<RowOutcome> := [];
    assert SheetErrors(none) == [] && SheetData(none) == [] && SheetThrow(none) == None;
    OutcomeStep(none, o2);
    assert none + [o2] == [o2];
    OutcomeStep([o2], o3);
    assert [o2] + [o3] == [o2, o3];
    OutcomeStep([o2, o3], o4);
    assert [o2, o3] + [o4] == [o2, o3, o4];
  }

  /** A workbook of one sheet whose rows were checked answers with that sheet's report and its records as valid data. */
  lemma IngestOne(cfg: Config, now: Now, fileId: FileId, ws: Worksheet, errors: seq<string>, data: seq<Record>)
    requires EvaluateSheet(cfg, now, fileId, ws) == Reported(RowsChecked(errors, data))
    ensures Ingest(cfg, now, fileId, [ws]) ==
            Responded(Response(map[ws.name := RowsChecked(errors, data)], map[ws.name := data]))
  {
    var outs := SheetOutcomes(cfg, now, fileId, [ws]);
    assert [ws][..|[ws]| - 1] == [];
    assert SheetOutcomes(cfg, now, fileId, []) == [];
    assert outs == [SheetOutcome(ws.name, EvaluateSheet(cfg, now, fileId, ws))];
    assert outs[..0] == [];
    assert Collect(outs[..0]) == Responded(Response(map[], map[]));
  }

  lemma Pair(x: string, y: string)
    ensures [x] + [y] == [x, y]
  {
  }

  /** The example sheet's rows: the header row, then row 2 passing, row 3 and row 4 failing. */
  lemma SalesRows(ctx: Context, rows: seq<SheetRow>)
    requires ctx == SalesContext() && rows == SalesSheet().rows
    ensures |rows| == 4 && rows[0].number == 1
    ensures rows[1].number == 2 && rows[2].number == 3 && rows[3].number == 4
    ensures EvaluateRow(ctx, rows[1]).Passed? && EvaluateRow(ctx, rows[1]).record["rowNumber"] == Value(Num(2.0))
    ensures EvaluateRow(ctx, rows[2]) == Failed([NumericMessage(3, "Amount")])
    ensures EvaluateRow(ctx, rows[3]) == Failed([RequiredMessage(4, "Name")])
  {
    GoodRowPasses(ctx, rows[1]);
    TextAmountRowFails(ctx, rows[2]);
    NamelessRowFails(ctx, rows[3]);
  }

  /** The sheet's report: row 3's amount message, then row 4's name message, and row 2's record. */
  lemma SalesReport(cfg: Config, ws: Worksheet)
    requires cfg == SalesConfig() && ws == SalesSheet()
    ensures var passed := EvaluateRow(SheetContext(cfg, June2024, "file-1", ws), ws.rows[1]);
            && passed.Passed? && "rowNumber" in passed.record && passed.record["rowNumber"] == Value(Num(2.0))
            && EvaluateSheet(cfg, June2024, "file-1", ws) ==
               Reported(RowsChecked([NumericMessage(3, "Amount"), RequiredMessage(4, "Name")], [passed.record]))
  {
    SalesHeaders();
    SalesColumnsPresent();
    var ctx := SheetContext(cfg, June2024, "file-1", ws);
    SalesRows(ctx, ws.rows);
    var m3, m4 := NumericMessage(3, "Amount"), RequiredMessage(4, "Name");
    SheetOfThree(cfg, June2024, "file-1", ws, [m3], [m4]);
    Pair(m3, m4);
  }

  /**
   * The upload answers with one report for the sheet: the two failing rows'
   * messages in row order and one record, row 2's, which is also the sheet's
   * only valid data.
   */
  lemma SalesUpload(cfg: Config, ws: Worksheet)
    requires cfg == SalesConfig() && ws == SalesSheet()
    ensures exists rec: Record ::
              && "rowNumber" in rec && rec["rowNumber"] == Value(Num(2.0))
              && Ingest(cfg, June2024, "file-1", [ws]) ==
                 Responded(Response(map["Sales" := RowsChecked([NumericMessage(3, "Amount"), RequiredMessage(4, "Name")], [rec])],
                                    map["Sales" := [rec]]))
  {
    SalesReport(cfg, ws);
    var rec := EvaluateRow(SheetContext(cfg, June2024, "file-1", ws), ws.rows[1]).record;
    IngestOne(cfg, June2024, "file-1", ws, [NumericMessage(3, "Amount"), RequiredMessage(4, "Name")], [rec]);
  }
}
