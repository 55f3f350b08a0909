/**
 * The spreadsheet side of a conversion: named sheets, the sheet names the
 * converter chooses, and the writer object that collects sheets until it is
 * closed (the writer blocks of app.py lines 67-71 and 79-80). The workbook
 * is kept abstract: an ordered list of named tables; the bytes of the
 * `.xlsx` container are not modelled.
 */
module Workbooks {
  import opened Wrappers
  import opened Frames
  import opened Numerals

  datatype Sheet = Sheet(name: string, table: Table)

  type Workbook = seq<Sheet>

  const TablePrefix: string := "Table_"
  const ErrorName: string := "Error"

  /** The name of the sheet for the table at 0-based position `i` (line 71): `Table_` and the number i+1. */
  function TableSheetName(i: nat): (s: string)
    ensures |s| > |TablePrefix| && s[..|TablePrefix|] == TablePrefix
    ensures forall k :: |TablePrefix| <= k < |s| ==> '0' <= s[k] <= '9'
    ensures Value(s[|TablePrefix|..]) == i + 1
    ensures |s| > |TablePrefix| + 1 ==> s[|TablePrefix|] != '0'
  {
    ValueOfDecimal(i + 1);
    assert (TablePrefix + Decimal(i + 1))[|TablePrefix|..] == Decimal(i + 1);
    TablePrefix + Decimal(i + 1)
  }

  /** Tables at different positions get different sheet names: the suffix reads back as the position plus one. */
  lemma TableSheetNameInjective(i: nat, j: nat)
    ensures TableSheetName(i) == TableSheetName(j) ==> i == j
  {
  }

  /** No table sheet is ever named like the failure sheet. */
  lemma TableSheetNameIsNotError(i: nat)
    ensures TableSheetName(i) != ErrorName
  {
    assert TableSheetName(i)[0] == 'T';
  }

  /** The one-cell table of the failure path (line 78): the exception text under the column `Error`. */
  function ErrorTable(message: string): Table {
    Table([ErrorName], [[Some(message)]])
  }

  /** The workbook written when an exception escapes: one sheet named `Error`. */
  function ErrorWorkbook(message: string): Workbook {
    [Sheet(ErrorName, ErrorTable(message))]
  }

  /**
   * The writer opened on the output buffer. Sheets are added one at a
   * time; leaving the `with` block is where the spreadsheet library
   * encodes the file and may raise: `closeFault` is the text of that
   * exception, an input of the model.
   */
  class ExcelWriter {
    var sheets: seq<Sheet>
    const closeFault: Option<string>

    constructor (closeFault: Option<string>)
      ensures sheets == [] && this.closeFault == closeFault
    {
      sheets := [];
      this.closeFault := closeFault;
    }

    /** Writing one table as a sheet without its index column (line 71). */
    method ToExcel(name: string, table: Table)
      modifies this
      ensures sheets == old(sheets) + [Sheet(name, table)]
    {
      sheets := sheets + [Sheet(name, table)];
    }
  }
}
