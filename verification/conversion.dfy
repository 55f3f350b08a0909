/**
 * `convert_pdf_to_excel` (app.py lines 38-82): one uploaded PDF becomes one
 * workbook, or nothing when the Java runtime is missing.
 *
 * The outside world is an input: whether `java -version` succeeds, what the
 * two `tabula.read_pdf` calls return or raise, and whether the spreadsheet
 * writer raises when it is closed.
 */
module Conversion {
  import opened Wrappers
  import opened Frames
  import opened Workbooks

  /** The outcome of one `tabula.read_pdf` call: a list of tables, or the text of the exception it raised. */
  datatype Extraction = Found(tables: seq<Table>) | Raised(message: string)

  /** One uploaded PDF together with the behaviour of the libraries on it. */
  datatype Document = Document(
    name: string,
    javaAvailable: bool,        // `check_java()`
    lattice: Extraction,        // `read_pdf(..., lattice=True)`
    stream: Extraction,         // `read_pdf(..., stream=True)`
    closeFault: Option<string>  // the writer raising when the workbook is written out
  )

  predicate ExtractionWellFormed(e: Extraction) {
    e.Found? ==> forall k :: 0 <= k < |e.tables| ==> WellFormed(e.tables[k])
  }

  predicate DocumentWellFormed(d: Document) {
    ExtractionWellFormed(d.lattice) && ExtractionWellFormed(d.stream)
  }

  const NoTablesMessage: string := "No tables found in PDF."

  /** The one-cell placeholder table of line 64, under the column `Message`. */
  function Placeholder(): Table {
    Table(["Message"], [[Some(NoTablesMessage)]])
  }

  /** The lattice attempt, with its exception swallowed as "no tables" (lines 52-55). */
  function LatticeTables(d: Document): seq<Table> {
    if d.lattice.Found? then d.lattice.tables else []
  }

  /**
   * The table list after the fallbacks of lines 52-64 — lattice, then stream,
   * then the placeholder — or the stream exception, which is not caught there.
   */
  function Extract(d: Document): (r: Extraction)
    requires DocumentWellFormed(d)
    ensures ExtractionWellFormed(r)
    ensures r.Found? ==> r.tables != []
    ensures LatticeTables(d) != [] ==> r == Found(LatticeTables(d))
    ensures LatticeTables(d) == [] && d.stream.Found? && d.stream.tables != [] ==> r == d.stream
    ensures LatticeTables(d) == [] && d.stream == Found([]) ==> r == Found([Placeholder()])
    ensures r.Raised? <==> LatticeTables(d) == [] && d.stream.Raised?
    ensures r.Raised? ==> r == d.stream
  {
    if LatticeTables(d) != [] then Found(LatticeTables(d))
    else match d.stream
      case Raised(m) => Raised(m)
      case Found(ts) => if ts == [] then Found([Placeholder()]) else Found(ts)
  }

  /** A table that is still non-empty after cleanup (`not df.empty`, line 70). */
  predicate Retained(t: Table) {
    WellFormed(t) && !IsEmpty(Normalize(t))
  }

  /**
   * The positions of the tables that still hold a value after cleanup, in
   * order: exactly the tables that get a sheet.
   */
  function KeptTables(ts: seq<Table>): (r: seq<nat>)
    ensures Increasing(r)
    ensures forall k :: 0 <= k < |r| ==> r[k] < |ts|
    ensures forall i: nat :: i in r <==> i < |ts| && Retained(ts[i])
  {
    if ts == [] then []
    else
      var n := |ts| - 1;
      assert forall i: nat :: i < n ==> ts[..n][i] == ts[i];
      KeptTables(ts[..n]) + (if Retained(ts[n]) then [n] else [])
  }

  /** The sheets the loop of lines 68-71 writes for the tables `ts`, in order. */
  function TableSheets(ts: seq<Table>): Workbook {
    if ts == [] then []
    else
      var n := |ts| - 1;
      TableSheets(ts[..n]) + (if Retained(ts[n]) then [Sheet(TableSheetName(n), Normalize(ts[n]))] else [])
  }

  /**
   * Sheet k holds the cleaned table at position KeptTables(ts)[k] under the
   * name `Table_{KeptTables(ts)[k]+1}`.
   */
  lemma {:induction false} TableSheetsLayout(ts: seq<Table>)
    ensures |TableSheets(ts)| == |KeptTables(ts)|
    ensures forall k :: 0 <= k < |TableSheets(ts)| ==>
      var i := KeptTables(ts)[k];
      Retained(ts[i]) && TableSheets(ts)[k] == Sheet(TableSheetName(i), Normalize(ts[i]))
  {
    if ts != [] {
      var n := |ts| - 1;
      var pre := ts[..n];
      TableSheetsLayout(pre);
      assert forall i: nat :: i < n ==> pre[i] == ts[i];
      var K, Kp := KeptTables(ts), KeptTables(pre);
      var w, wp := TableSheets(ts), TableSheets(pre);
      assert K == Kp + (if Retained(ts[n]) then [n] else []);
      assert w == wp + (if Retained(ts[n]) then [Sheet(TableSheetName(n), Normalize(ts[n]))] else []);
      forall k | 0 <= k < |w|
        ensures Retained(ts[K[k]]) && w[k] == Sheet(TableSheetName(K[k]), Normalize(ts[K[k]]))
      {
        if k < |wp| {
          assert w[k] == wp[k] && K[k] == Kp[k];
        } else {
          assert K[k] == n;
        }
      }
    }
  }

  /**
   * The workbook produced for `d`: nothing without Java; the `Error` workbook
   * when an exception escapes the outer `try`; otherwise one sheet per table
   * that survives cleanup.
   */
  function Plan(d: Document): (r: Option<Workbook>)
    requires DocumentWellFormed(d)
    ensures r.None? <==> !d.javaAvailable
  {
    if !d.javaAvailable then None
    else match Extract(d)
      case Raised(m) => Some(ErrorWorkbook(m))
      case Found(ts) =>
        if d.closeFault.Some? then Some(ErrorWorkbook(d.closeFault.value)) else Some(TableSheets(ts))
  }

  /** The sheet loop of lines 68-71, writing into a fresh writer. */
  method WriteTables(writer: ExcelWriter, tables: seq<Table>)
    requires writer.sheets == []
    requires forall k :: 0 <= k < |tables| ==> WellFormed(tables[k])
    modifies writer
    ensures writer.sheets == TableSheets(tables)
  {
    for i := 0 to |tables|
      invariant writer.sheets == TableSheets(tables[..i])
    {
      var df := Normalize(tables[i]);
      ghost var done := tables[..i + 1];
      assert done[..i] == tables[..i] && done[i] == tables[i];
      assert TableSheets(done) == TableSheets(tables[..i])
        + (if Retained(tables[i]) then [Sheet(TableSheetName(i), df)] else []);
      if !IsEmpty(df) {
        writer.ToExcel(TableSheetName(i), df);
      }
    }
    assert tables[..|tables|] == tables;
  }

  /** The conversion as the script runs it, step by step. */
  method ConvertPdfToExcel(d: Document) returns (result: Option<Workbook>)
    requires DocumentWellFormed(d)
    ensures result == Plan(d)
  {
    if !d.javaAvailable {
      return None;
    }
    var failure: Option<string> := None;
    var tables: seq<Table>;
    if d.lattice.Found? {
      tables := d.lattice.tables;
    } else {
      tables := [];
    }
    if tables == [] {
      if d.stream.Found? {
        tables := d.stream.tables;
      } else {
        failure := Some(d.stream.message);
      }
    }
    if failure.None? {
      if tables == [] {
        tables := [Placeholder()];
      }
      assert Extract(d) == Found(tables);
      assert forall k :: 0 <= k < |tables| ==> WellFormed(tables[k]);
      var writer := new ExcelWriter(d.closeFault);
      WriteTables(writer, tables);
      failure := writer.closeFault;
      if failure.None? {
        return Some(writer.sheets);
      }
      assert Plan(d) == Some(ErrorWorkbook(failure.value));
    } else {
      assert Extract(d) == Raised(failure.value);
      assert Plan(d) == Some(ErrorWorkbook(failure.value));
    }
    var errorWriter := new ExcelWriter(None);
    errorWriter.ToExcel(ErrorName, ErrorTable(failure.value));
    assert errorWriter.sheets == ErrorWorkbook(failure.value);
    return Some(errorWriter.sheets);
  }

  // ---------------------------------------------------------------------
  // Properties of the plan

  /** Sheet names never repeat: they are `Table_{i+1}` for increasing positions `i`. */
  lemma {:induction false} TableSheetNamesDistinct(ts: seq<Table>)
    ensures forall p, q :: 0 <= p < q < |TableSheets(ts)| ==> TableSheets(ts)[p].name != TableSheets(ts)[q].name
  {
    var w, K := TableSheets(ts), KeptTables(ts);
    TableSheetsLayout(ts);
    forall p, q | 0 <= p < q < |w|
      ensures w[p].name != w[q].name
    {
      TableSheetNameInjective(K[p], K[q]);
    }
  }

  /** A lattice exception is treated exactly like a lattice run that found no table. */
  lemma LatticeErrorSwallowed(d: Document, m: string)
    requires DocumentWellFormed(d)
    ensures Plan(d.(lattice := Raised(m))) == Plan(d.(lattice := Found([])))
  {
  }

  /** Stream mode is consulted only when lattice mode gives no table. */
  lemma StreamOnlyWithoutLatticeTables(d: Document, s: Extraction)
    requires DocumentWellFormed(d) && ExtractionWellFormed(s)
    requires d.lattice.Found? && d.lattice.tables != []
    ensures Plan(d.(stream := s)) == Plan(d)
  {
  }

  /** A stream exception is not swallowed: it turns the whole document into the `Error` workbook. */
  lemma StreamErrorEscapes(d: Document)
    requires DocumentWellFormed(d)
    requires d.javaAvailable && LatticeTables(d) == [] && d.stream.Raised?
    ensures Plan(d) == Some(ErrorWorkbook(d.stream.message))
  {
  }

  /**
   * An exception raised while the workbook is written out is caught by the
   * same handler: the tables already written are discarded for the `Error` sheet.
   */
  lemma WriterErrorEscapes(d: Document, m: string)
    requires DocumentWellFormed(d)
    requires d.javaAvailable && Extract(d).Found? && d.closeFault == Some(m)
    ensures Plan(d) == Some(ErrorWorkbook(m))
  {
  }

  /** When neither mode finds a table, the workbook is the placeholder alone, on sheet `Table_1`. */
  lemma {:induction false} NoTablesGivesPlaceholder(d: Document)
    requires DocumentWellFormed(d)
    requires d.javaAvailable && LatticeTables(d) == [] && d.stream == Found([]) && d.closeFault.None?
    ensures Plan(d) == Some([Sheet("Table_1", Table(["Message"], [[Some("No tables found in PDF.")]]))])
  {
    var p := Placeholder();
    assert p.rows[0][0].Some?;
    assert !RowEmpty(p.rows[0]);
    assert !ColumnEmpty(p.rows, 0);
    NormalizeUnchanged(p);
    assert Extract(d) == Found([p]);
    assert Retained(p);
    assert [p][..0] == [];
    assert TableSheets([p]) == [Sheet(TableSheetName(0), p)];
    assert TableSheetName(0) == "Table_1";
  }

  /**
   * A single lattice table without blank lines and columns (the bordered
   * 3×2 table, say) becomes exactly one sheet `Table_1` with that table.
   */
  lemma {:induction false} SingleCleanTable(d: Document, t: Table)
    requires DocumentWellFormed(d)
    requires d.javaAvailable && d.lattice == Found([t]) && d.closeFault.None?
    requires |t.rows| > 0 && |t.header| > 0
    requires forall a :: 0 <= a < |t.rows| ==> !RowEmpty(t.rows[a])
    requires forall b: nat :: b < |t.header| ==> !ColumnEmpty(t.rows, b)
    ensures Plan(d) == Some([Sheet("Table_1", t)])
  {
    assert d.lattice.tables[0] == t;
    NormalizeUnchanged(t);
    assert Extract(d) == Found([t]);
    assert Retained(t);
    assert [t][..0] == [];
    assert TableSheets([t]) == [Sheet(TableSheetName(0), t)];
    assert TableSheetName(0) == "Table_1";
  }

  /**
   * Without a failure, sheet k holds the cleaned table at position K[k] of
   * the extracted list under the name `Table_{K[k]+1}`, where K lists, in
   * increasing order, exactly the positions whose cleaned table is not
   * empty: at most one sheet per table, numbering gaps exactly at the
   * dropped tables, and no sheet named `Error`.
   */
  lemma {:induction false} SuccessfulPlan(d: Document)
    requires DocumentWellFormed(d)
    requires d.javaAvailable && Extract(d).Found? && d.closeFault.None?
    ensures var ts, K := Extract(d).tables, KeptTables(Extract(d).tables);
      && Plan(d).Some?
      && |Plan(d).value| == |K| <= |ts|
      && (forall i: nat :: i in K <==> i < |ts| && !IsEmpty(Normalize(ts[i])))
      && (forall k :: 0 <= k < |K| ==> Plan(d).value[k] == Sheet(TableSheetName(K[k]), Normalize(ts[K[k]])))
      && (forall k :: 0 <= k < |K| ==> Plan(d).value[k].name != ErrorName)
  {
    var ts, K := Extract(d).tables, KeptTables(Extract(d).tables);
    assert Plan(d) == Some(TableSheets(ts));
    assert forall i :: 0 <= i < |ts| ==> (Retained(ts[i]) <==> !IsEmpty(Normalize(ts[i])));
    TableSheetsLayout(ts);
    IncreasingBounded(K, |ts|);
    forall k | 0 <= k < |K|
      ensures Plan(d).value[k].name != ErrorName
    {
      TableSheetNameIsNotError(K[k]);
    }
  }

  /** An increasing list of positions below `n` has at most `n` elements. */
  lemma {:induction false} IncreasingBounded(s: seq<nat>, n: nat)
    requires Increasing(s)
    requires forall k :: 0 <= k < |s| ==> s[k] < n
    ensures |s| <= n
  {
    if s != [] {
      var m := |s| - 1;
      assert forall k :: 0 <= k < m ==> s[..m][k] < s[m];
      IncreasingBounded(s[..m], s[m]);
    }
  }

  /**
   * A failure is wholesale: a workbook with a sheet named `Error` has that
   * sheet alone, holding the exception text, which is the stream error or
   * the writer's error.
   */
  lemma {:induction false} ErrorIsWholesale(d: Document, k: nat)
    requires DocumentWellFormed(d)
    requires Plan(d).Some? && k < |Plan(d).value| && Plan(d).value[k].name == ErrorName
    ensures |Plan(d).value| == 1
    ensures exists m ::
      && Plan(d).value == ErrorWorkbook(m)
      && ((Extract(d).Raised? && m == Extract(d).message) || d.closeFault == Some(m))
  {
    if Extract(d).Found? && d.closeFault.None? {
      SuccessfulPlan(d);
      assert false;
    }
  }

  /**
   * Every sheet of a produced workbook is the `Error` sheet or is named
   * `Table_{i+1}` after a position i of the extracted list, and no two
   * sheets share a name.
   */
  lemma {:induction false} PlanSheetNames(d: Document)
    requires DocumentWellFormed(d) && Plan(d).Some?
    ensures forall p, q :: 0 <= p < q < |Plan(d).value| ==> Plan(d).value[p].name != Plan(d).value[q].name
    ensures forall k :: 0 <= k < |Plan(d).value| ==>
      || Plan(d).value[k].name == ErrorName
      || (Extract(d).Found? && exists i :: 0 <= i < |Extract(d).tables| && Plan(d).value[k].name == TableSheetName(i))
  {
    if Extract(d).Found? && d.closeFault.None? {
      var ts := Extract(d).tables;
      TableSheetNamesDistinct(ts);
      SuccessfulPlan(d);
      forall k | 0 <= k < |Plan(d).value|
        ensures exists i :: 0 <= i < |ts| && Plan(d).value[k].name == TableSheetName(i)
      {
        var i := KeptTables(ts)[k];
        assert Plan(d).value[k].name == TableSheetName(i);
      }
    }
  }

  /**
   * The placeholder is used only when no table at all is extracted: tables,
   * from either mode, that are all blank leave a workbook without any sheet.
   */
  lemma {:induction false} BlankTablesGiveNoSheets(d: Document)
    requires DocumentWellFormed(d)
    requires d.javaAvailable && d.closeFault.None? && Extract(d).Found?
    requires forall k :: 0 <= k < |Extract(d).tables| ==> AllCellsEmpty(Extract(d).tables[k])
    ensures Plan(d) == Some([])
  {
    var ts := Extract(d).tables;
    forall k | 0 <= k < |ts|
      ensures !Retained(ts[k])
    {
      NormalizeEmptyIff(ts[k]);
    }
    NothingRetained(ts);
  }

  lemma {:induction false} NothingRetained(ts: seq<Table>)
    requires forall k :: 0 <= k < |ts| ==> !Retained(ts[k])
    ensures TableSheets(ts) == []
  {
    if ts != [] {
      NothingRetained(ts[..|ts| - 1]);
    }
  }
}
