# PDF to Excel converter — a Dafny model of its conversion logic

The converter is a small web script (`app.py`). For each uploaded PDF it:

1. checks that a Java runtime is present;
2. asks the table extractor for tables, first in *lattice* mode (tables with ruling lines) and then, if that gave none, in *stream* mode (whitespace layout);
3. falls back to a one-cell placeholder table reading `No tables found in PDF.` when neither mode finds a table;
4. cleans every table by dropping rows, then columns, whose cells are all missing;
5. writes each non-empty cleaned table to a sheet `Table_{i+1}`, where `i` is the table's position in the extracted list.

If an exception escapes after the Java check, the workbook is replaced wholesale by a single sheet `Error` that holds the exception text. Workbooks are stored in an insertion-ordered dictionary under the upload name with every `.pdf` replaced by `.xlsx`. What the user is then offered depends on the number of entries: nothing for zero, the single workbook for one, and the archive `converted_pdfs.zip` with one member per entry for more.

The model treats the libraries as inputs. A `Document` carries four of them:

- the outcome of the Java check;
- the lattice result, which is either a list of tables or the text of an exception;
- the stream result, in the same form;
- an optional exception raised when the spreadsheet writer is closed.

A table is a list of column labels plus rows of `Option<string>` cells, where `None` stands for a missing (NaN) cell. A workbook is an ordered list of named tables. The archive is an ordered list of (name, workbook) members.

Modules, one per part of the script:

- `Frames` (frames.dfy) — tables and the row/column cleanup.
- `Numerals` (numerals.dfy) — decimal rendering of the sheet number.
- `Workbooks` (workbooks.dfy) — sheets, sheet names and the writer object.
- `Conversion` (conversion.dfy) — `convert_pdf_to_excel`. The pure specification is `Plan`. The imperative method `ConvertPdfToExcel` is proved equal to it.
- `OutputNames` (names.dfy) — Python's `str.replace(".pdf", ".xlsx")`.
- `OrderedMaps` (ordered_maps.dfy) — the insertion-ordered dictionary.
- `Batch` (batch.dfy) — the loop over the uploads.
- `Packaging` (packaging.dfy) — the single-file or archive choice.
- `Wrappers` (wrappers.dfy) — `Option`.

A quirk the model makes explicit: the placeholder appears only when the extractor returns *no* table. If it returns tables that are all blank, every one is dropped and the script writes no sheet at all (`BlankTablesGiveNoSheets`). Likewise, sheet numbers keep the gaps left by dropped tables and are never renumbered. Cleanup removes blank rows and columns anywhere in a table, not only at its edges. Two uploads with the same output name are not disambiguated: the later workbook replaces the earlier one, and the key keeps its first position.

## Model

| member | source | states |
|---|---|---|
| `Frames.KeptRows` | app.py:69 | the surviving row positions are increasing, and position i survives exactly when row i holds a value |
| `Frames.KeptColumns` | app.py:69 | the surviving column positions are increasing, and column j survives exactly when some row holds a value in it |
| `Frames.Normalize` | app.py:69 | cleaning keeps the table rectangular |
| `Frames.ColumnsAfterRowDrop` | app.py:69 | dropping columns after the blank rows are gone gives the same columns as judging them on the whole table |
| `Frames.NormalizeIsSubgrid` | app.py:69 | the cleaned table is the sub-grid at the surviving rows and columns, in their original order, with cell values and labels unchanged |
| `Frames.NormalizeLeavesNoEmptyLine` | app.py:69 | no row and no column of a cleaned table is entirely missing |
| `Frames.NormalizeEmptyIff` | app.py:69-70 | a cleaned table is empty exactly when every cell of the original is missing, and it has no rows exactly when it has no columns |
| `Frames.NormalizeUnchanged` | app.py:69 | a table without blank rows or columns is left unchanged |
| `Frames.NormalizeIdempotent` | app.py:69 | cleaning twice is the same as cleaning once |
| `Numerals.Decimal` | app.py:71 | the rendering of a number is digits only, one digit exactly for numbers below ten, with no leading zero |
| `Numerals.ValueOfDecimal` | app.py:71 | reading the rendering back gives the number |
| `Numerals.DecimalInjective` | app.py:71 | different numbers render differently |
| `Workbooks.TableSheetName` | app.py:71 | the sheet name for position i is `Table_` followed by digits only, with no leading zero, which read back as the number i+1 |
| `Workbooks.TableSheetNameInjective` | app.py:71 | tables at different positions get different sheet names |
| `Workbooks.TableSheetNameIsNotError` | app.py:71 | no table sheet is named `Error` |
| `Workbooks.ErrorTable` | app.py:78 | the failure table has the single column `Error` and one row holding the exception text; pinned by `Conversion.StreamErrorEscapes`, `Conversion.WriterErrorEscapes` and `Conversion.ErrorIsWholesale` |
| `Workbooks.ErrorWorkbook` | app.py:78-80 | the failure workbook is that table alone on a sheet named `Error`; pinned by `Conversion.ErrorIsWholesale` |
| `Workbooks.ExcelWriter.constructor` | app.py:67 | a new writer has no sheets |
| `Workbooks.ExcelWriter.ToExcel` | app.py:71 | writing a table appends exactly one sheet with that name and table |
| `Conversion.LatticeTables` | app.py:52-55 | a lattice exception counts as no tables; pinned by `Conversion.LatticeErrorSwallowed` and the `Extract` contract |
| `Conversion.Placeholder` | app.py:61-64 | the placeholder is one column `Message` with the row `No tables found in PDF.`; pinned by `Conversion.NoTablesGivesPlaceholder` |
| `Conversion.Extract` | app.py:50-64 | the lattice tables are used when there are any; otherwise the stream tables when there are any; otherwise the placeholder alone; the result is an exception exactly when lattice finds nothing and stream raises, and it is then the stream exception; a table list is never empty |
| `Conversion.KeptTables` | app.py:68-70 | the positions that get a sheet are increasing, and position i gets one exactly when its cleaned table is not empty |
| `Conversion.TableSheets` | app.py:68-71 | the sheets the loop writes, specified on values; pinned by `Conversion.TableSheetsLayout` and `Conversion.TableSheetNamesDistinct` |
| `Conversion.TableSheetsLayout` | app.py:68-71 | sheet k is the cleaned table at the k-th kept position i, named `Table_{i+1}` |
| `Conversion.Plan` | app.py:38-82 | no workbook is produced exactly when Java is missing |
| `Conversion.WriteTables` | app.py:67-71 | the sheet loop writes exactly the sheets of the plan |
| `Conversion.ConvertPdfToExcel` | app.py:38-82 | the step-by-step conversion produces exactly the planned workbook |
| `Conversion.TableSheetNamesDistinct` | app.py:68-71 | no two sheets share a name |
| `Conversion.LatticeErrorSwallowed` | app.py:52-55 | a lattice exception has the same effect as a lattice run that found no table |
| `Conversion.StreamOnlyWithoutLatticeTables` | app.py:57-59 | when lattice mode finds tables, the stream result has no effect |
| `Conversion.StreamErrorEscapes` | app.py:57-82 | when lattice mode finds no table and stream mode raises, the workbook is the single `Error` sheet with the stream exception text |
| `Conversion.WriterErrorEscapes` | app.py:66-82 | when the tables were extracted but writing the workbook raises, the workbook is the single `Error` sheet with the writer's exception text |
| `Conversion.NoTablesGivesPlaceholder` | app.py:61-71 | when neither mode finds a table, the workbook is exactly one sheet `Table_1` with column `Message` and the row `No tables found in PDF.` |
| `Conversion.SingleCleanTable` | app.py:50-71 | a single lattice table without blank lines becomes exactly one sheet `Table_1` holding that table |
| `Conversion.SuccessfulPlan` | app.py:66-74 | without a failure, there is at most one sheet per extracted table, in order, named after its pre-cleanup position, gaps exactly at the dropped tables, and no `Error` sheet |
| `Conversion.ErrorIsWholesale` | app.py:76-82 | a workbook with an `Error` sheet has that sheet alone, and it holds the stream or writer exception text |
| `Conversion.PlanSheetNames` | app.py:66-82 | sheet names are pairwise distinct and each is `Error` or `Table_{i+1}` for a position i of the extracted list |
| `Conversion.BlankTablesGiveNoSheets` | app.py:50-71 | extracted tables, from lattice or stream mode, that are all blank yield a workbook with no sheet, and no placeholder is used |
| `OutputNames.ReplaceAll` | app.py:104 | Python's left-to-right, non-overlapping, case-sensitive `str.replace`; pinned for `.pdf` by `OutputNames.ReplaceAround` and `OutputNames.NoPdfUnchanged` |
| `OutputNames.OutputName` | app.py:104 | the key of an upload is its name with every `.pdf` replaced by `.xlsx`; pinned by `OutputNames.ReplaceAround`, `OutputNames.NoPdfUnchanged` and `OutputNames.NoPdfInOutputName` |
| `OutputNames.NoPdfUnchanged` | app.py:104 | a name without `.pdf` (such as `X.PDF`) is its own output name |
| `OutputNames.OutputNameGrows` | app.py:104 | the output name is never shorter, and it is strictly longer when `.pdf` occurs |
| `OutputNames.OutputNameUnchangedIff` | app.py:104 | the output name equals the upload name exactly when `.pdf` does not occur in it |
| `OutputNames.NoPdfInOutputName` | app.py:104 | no `.pdf` is left in an output name |
| `OutputNames.PdfSuffixBecomesXlsx` | app.py:104 | a name ending in `.pdf` gets its stem's output name followed by `.xlsx` |
| `OutputNames.ReplaceAround` | app.py:104 | every occurrence of `.pdf`, wherever it stands, becomes `.xlsx`, and the text before and after it is rewritten independently (`a.pdf.bak` gives `a.xlsx.bak`); with `NoPdfUnchanged` this fixes the output name of every name |
| `OutputNames.OutputNamesCollide` | app.py:104 | two different uploads can share an output name (`a.pdf` and `a.xlsx`) |
| `OrderedMaps.Empty` | app.py:100 | the new dictionary has no key |
| `OrderedMaps.Put` | app.py:104 | storing a value keeps the keys distinct; a new key goes last, an existing key keeps its position, and the other values are unchanged |
| `Batch.Conversions` | app.py:101-102 | each upload, in upload order, paired with its name and its conversion `Plan`; a definition with no contract of its own, used by `Batch.ConvertAll` and `Packaging.Run` |
| `Batch.Collect` | app.py:100-104 | the collected dictionary is well formed: its keys are distinct and listed in order |
| `Batch.ConvertAll` | app.py:100-104 | the upload loop builds exactly the collected dictionary |
| `Batch.CollectKeys` | app.py:101-104 | a key is present exactly when some upload produced a workbook with that output name |
| `Batch.CollectLastWins` | app.py:104 | the value under a key is the workbook of the last upload producing that key |
| `Batch.CollectFirstPosition` | app.py:104 | keys are ordered by their first producing upload |
| `Batch.NoJavaNoFiles` | app.py:101-104 | when Java is missing for every upload, nothing is stored |
| `Packaging.ArchiveEntries` | app.py:121-124 | there is one archive member per key, in insertion order, each holding that key's workbook unchanged, with distinct names |
| `Packaging.Package` | app.py:109-130 | no entry gives no offer; one entry is offered directly under its key; more entries give `converted_pdfs.zip` with every entry |
| `Packaging.Deliver` | app.py:109-130 | the download section, including the member-by-member archive loop, gives exactly the packaged offer |
| `Packaging.Run` | app.py:95-130 | converting the uploads and packaging them gives the offer of the collected workbooks |
| `Packaging.OfferedWorkbooks` | app.py:104-130 | the last producing upload's workbook is offered under its output name, alone or as an archive member |

## Left out

- The web user interface is not modelled. This covers page setup, titles, the uploader, the button, the spinner, messages, download buttons and the footer (app.py:11-23, 46-47, 63, 77, 88-99, 110-145). The empty-upload warning shows up only as the empty offer.
- The `java -version` subprocess call (app.py:29-35) is not modelled. Its outcome is an input, `Document.javaAvailable`, checked once per document as the script does.
- The PDF layout analysis of `tabula.read_pdf` (app.py:53, 59) is not modelled. Each call is an input: a list of tables or an exception text.
- The bytes of the `.xlsx` file are not modelled. This covers header and index layout, the 31-character sheet-name rule and the library's limits. A workbook is a list of named tables, and its "bytes" in the batch are that list.
- What the spreadsheet library does with a workbook that ends up with no sheet is not modelled. The model returns the empty list.
- `Workbooks.ExcelWriter.ToExcel`: always appends a new sheet. A repeated sheet name would reuse the existing sheet in the library, but the plan never repeats a name (`Conversion.TableSheetNamesDistinct`).
- Where the writer raises is not modelled. A fault is recorded once, as the writer being closed with an exception (`Document.closeFault`). Any failure inside the writing block yields the same wholesale `Error` workbook, so the position does not change the result.
- A failure while writing the `Error` workbook itself (app.py:79-80, outside the `try`) is not modelled.
- Reuse of the same output buffer by the error path is not modelled, and neither is BytesIO cursor handling.
- ZIP and deflate encoding is not modelled. The archive is its ordered list of members.
- Exception texts are opaque strings. Data-frame types are reduced to "cell present or missing".
