/**
 * The spreadsheet converter: each sheet row becomes one bulk-import row, with a
 * falsy month cell replaced by 0.
 */
module ExcelImport {
  import opened Common
  import opened Users
  import opened MonthlyRecords
  import opened MonthlyStore

  /** A sheet row: the 'Field Engineer' cell and the three target cells. */
  datatype SheetRow = SheetRow(fieldEngineer: JsValue, targetSep25: JsValue, targetOct25: JsValue, targetNov25: JsValue)

  /** The converter's result, an object with the single key `targetsData`. */
  datatype ImportPayload = ImportPayload(targetsData: seq<ImportRow>)

  /** The cells of a sheet row in column order. */
  function Cells(row: SheetRow): seq<JsValue>
  {
    [row.targetSep25, row.targetOct25, row.targetNov25]
  }

  /** One sheet row as an import row: the email copied, each month its cell, or 0 for a falsy cell. */
  function ConvertRow(row: SheetRow): (r: ImportRow)
    ensures r.email == row.fieldEngineer
    ensures forall i :: 0 <= i < 3 ==>
              MonthColumns(r)[i].1 == if Truthy(Cells(row)[i]) then Cells(row)[i] else Num(0)
    ensures forall i :: 0 <= i < 3 ==> !Skipped(MonthColumns(r)[i].1)
  {
    ImportRow(row.fieldEngineer, Or(row.targetSep25, Num(0)), Or(row.targetOct25, Num(0)), Or(row.targetNov25, Num(0)))
  }

  /** convertExcelToJson: one import row per sheet row, in order. */
  function ConvertExcelToJson(rows: seq<SheetRow>): (r: ImportPayload)
    ensures |r.targetsData| == |rows|
    ensures forall i :: 0 <= i < |rows| ==> r.targetsData[i] == ConvertRow(rows[i])
  {
    ImportPayload(seq(|rows|, i requires 0 <= i < |rows| => ConvertRow(rows[i])))
  }

  /**
   * A converted row of a known user is never skipped: it is imported exactly when each cell is
   * falsy or a number of at least 0, and then each month reads back its cell, or 0 for a falsy
   * cell, so an empty cell overwrites a stored value with 0.
   */
  lemma ConvertedRowStoresEveryMonth(kind: Kind, users: seq<User>, docs: map<UserId, Doc>, row: SheetRow, now: int)
    requires DocsValid(docs)
    requires Truthy(row.fieldEngineer) && FindByEmail(users, row.fieldEngineer).Some?
    ensures var (outcome, after) := ImportStep(kind, users, docs, ConvertRow(row), now);
      && (outcome.Imported? <==> forall i :: 0 <= i < 3 && Truthy(Cells(row)[i]) ==> ValidValue(Cells(row)[i]))
      && (outcome.Imported? ==>
            var id := FindByEmail(users, row.fieldEngineer).value.id;
            forall i :: 0 <= i < 3 ==>
              Lookup(after[id].entries, Str(MonthColumns(ConvertRow(row))[i].0), Num(ImportYear))
              == Some(if Truthy(Cells(row)[i]) then Cells(row)[i] else Num(0)))
  {
    ImportStepMeaning(kind, users, docs, ConvertRow(row), now);
  }
}
