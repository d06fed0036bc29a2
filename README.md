# ODS format adapter of tablib, modelled in Dafny

This project models the data-shaping logic of tablib's OpenDocument
Spreadsheet adapter (`tablib/formats/_ods.py`). The ODF document library
(odfpy) is replaced by plain Dafny values:

- **Cell value decoding** (`getvalue`, `convert`, `plaintext`), in module
  `CellDecoding`. A cell's `office:value-type` tag selects the attribute
  that holds its raw value, as in section 19.385 of OpenDocument v1.2 Part 1.
  `string` cells give their paragraphs' text nodes joined by newlines.
  `float`, `percentage` and `currency` cells give a number. `date` and `time`
  cells give the raw attribute. `boolean` cells are true only for `"true"`.
  A cell without a tag gives None, and an unknown tag raises `KeyError`.
- **Sheet import** (`_import_set`, `import_set`), in module `SheetImport`.
  The title comes from the table name. Each cell is repeated by its
  column-repeat count. Row 0 becomes the headers when asked, and the other
  rows are appended in document order.
- **Sheet building** (`dset_sheet`), in module `SheetBuilding`. Separator
  rows are spliced into the packaged rows with Python's `list.insert`
  semantics (module `PyList`). Each cell becomes a paragraph in a table
  cell, bold in row 0 when the dataset has headers. Each cell also adds one
  column declaration.
- **Sheet naming** (`export_set`, `export_book`), in modules `SheetNaming`
  and `OdsExport`. An untitled dataset gets `Tablib Dataset` when exported
  alone, and `Sheet<i>` at position `i` of a book.

The dataset container is the class `Tabular.Dataset`, with fields `title`,
`headers`, `rows` and `separators`. The worksheet being filled is the class
`SheetBuilding.Worksheet`, which holds its name, its number of column
declarations and its rows of cells. A cell value is `Tabular.Value`: None,
text, a float (kept as the literal it was parsed from) or a boolean.

The model follows the code, including where its behaviour is not the
obvious one:

- An unrecognised value-type tag is not decoded to None. The dispatch
  table lookup raises `KeyError`, which ends the import. At that point the
  title and the rows before the failing one are already stored
  (`SheetImport.ImportSheet`).
- With the repeat count read as an integer (see "Left out"), a count of 0
  counts as 1, as does an absent one (`or 1`). A negative count gives no
  copies at all (`[v] * n`).
- The bold style goes to whatever row is at position 0 after splicing, not
  to the header row as such. A separator at index 0 takes it
  (`SheetBuilding.SeparatorAtZeroTakesBold`).
- The exporter writes every cell without an `office:value-type`. A header
  cell's text sits inside a bold span, which `plaintext` does not read. So
  an exported sheet read back through this adapter decodes each cell to
  None (`DecodeCell` on a cell without a tag). The model does not promise
  an export-then-import round trip.

## Model

| member | source | states |
|---|---|---|
| CellDecoding.DecodeCell | tablib/formats/_ods.py:104-139 | No tag gives None; an error happens exactly for a tag outside the dispatch table, and it is KeyError of that tag; a string cell gives its plain text; the result is True exactly for a boolean cell whose raw value is "true"; a boolean result only comes from a boolean cell; a float result only comes from a numeric tag and carries the `value` attribute |
| CellDecoding.DecodeCellIsTyped | tablib/formats/_ods.py:104-139 | The string-keyed dispatch agrees on every cell with a decoder over the closed set of seven value types, one handler each |
| CellDecoding.ParseTagMatchesTable | tablib/formats/_ods.py:107-115 | The tags the dispatch table accepts are exactly the spellings of the seven value types |
| CellDecoding.ParseTagOfTag | tablib/formats/_ods.py:107-115 | Each value type's spelling parses back to that type |
| CellDecoding.BooleanCellDecode | tablib/formats/_ods.py:122-123 | A boolean cell with raw value `raw` decodes to `raw == "true"`: true for that literal, false for every other string |
| CellDecoding.DateTimeCellPassesThrough | tablib/formats/_ods.py:117-124 | Date and time cells return their `datevalue` / `timevalue` attribute unchanged |
| CellDecoding.AbsentAttributeIsNull | tablib/formats/_ods.py:117-119 | A known non-string tag whose value attribute is absent decodes to None, unconverted |
| CellDecoding.Convert | tablib/formats/_ods.py:117-124 | The result is None exactly when the attribute is absent; numeric tags, and only they, give a float carrying the raw text; the boolean tag, and only it, gives a boolean that is true exactly for "true"; any other tag gives the raw text unchanged |
| CellDecoding.PlainText | tablib/formats/_ods.py:126-130 | A cell without text nodes gives the empty string; when no text node holds a newline, splitting the result on newlines gives the text nodes back in document order |
| CellDecoding.SplitJoin | tablib/formats/_ods.py:126-130 | Splitting the newline-joined text nodes on the newline gives the text nodes back when none contains a newline |
| CellDecoding.JoinNewlineCount | tablib/formats/_ods.py:126-130 | Newline-free text nodes are separated by exactly one newline each: the joined text holds one fewer newline than there are nodes |
| SheetImport.RepeatCount | tablib/formats/_ods.py:145 | `... or 1`: an absent count reads as 1, a zero count is replaced by 1, and any other count is kept; the result is never 0 |
| SheetImport.Repeated | tablib/formats/_ods.py:146 | `[v] * n` holds n copies of v, and none when n is not positive |
| SheetImport.Width | tablib/formats/_ods.py:145-146 | A cell contributes 1 value when its repeat count is absent or 0, n when it is n > 0, and none when it is negative |
| SheetImport.ExpandRowFails | tablib/formats/_ods.py:143-146 | A row fails exactly when one of its cells fails to decode, and then with the error of the first failing cell |
| SheetImport.ExpandRowLength | tablib/formats/_ods.py:143-146 | A decoded row's length is the sum of its cells' widths |
| SheetImport.ExpandRowAt | tablib/formats/_ods.py:143-146 | Each copy of cell k's decoded value sits right after the values of the cells before it |
| SheetImport.RowValues | tablib/formats/_ods.py:143-146 | The loop that extends `values` cell by cell computes the expanded row, or stops at the first error |
| SheetImport.DecodeRows | tablib/formats/_ods.py:142-150 | The import reads no more rows than the table has, and reads them all exactly when none fails |
| SheetImport.DecodeRowsSpec | tablib/formats/_ods.py:142-150 | Every imported row is its table row's expanded values in document order, and a failure is the error of the first row that does not decode |
| SheetImport.DecodeRowsPrefix | tablib/formats/_ods.py:142-150 | Once a row fails, the rows after it are never read |
| SheetImport.ImportSheet | tablib/formats/_ods.py:141-150 | The title is the table's name. With the headers flag, row 0 replaces the headers and later rows are appended in order; without it, every row is appended and the headers are untouched. A failing row stops the import after the earlier rows |
| SheetImport.ImportSet | tablib/formats/_ods.py:152-157 | The dataset is wiped and then filled from the first table; with no table at all, the import fails with IndexError on an emptied dataset |
| Tabular.Dataset.Wipe | tablib/formats/_ods.py:153 | Wiping empties rows and headers and keeps the title and separators |
| Tabular.PackagedCellCount | tablib/formats/_ods.py:57 | The packaged rows are the headers row, when there are headers, then the data rows; the headers add their cells to the count |
| PyList.InsertPosition | tablib/formats/_ods.py:61 | `list.insert` counts a negative index from the end and clamps an index outside the list to its nearest end |
| PyList.Insert | tablib/formats/_ods.py:61 | Inserting adds one element at the clamped position, with the elements before it unchanged and those after it shifted by one |
| PyList.InsertPastEnd | tablib/formats/_ods.py:61 | An index at or past the end appends |
| SheetBuilding.SpliceSeparators | tablib/formats/_ods.py:59-61 | The in-place insertion loop with its accumulating offset yields the spliced rows |
| SheetBuilding.SpliceLength | tablib/formats/_ods.py:59-61 | The row count grows by exactly the number of separators |
| SheetBuilding.SpliceInsertsAt | tablib/formats/_ods.py:59-61 | When it is inserted, the i-th separator becomes a one-cell row at its index plus i, clamped into the list |
| SheetBuilding.SpliceSortedAt | tablib/formats/_ods.py:59-61 | With ascending in-range indices, each separator ends up at its index plus the number of separators before it |
| SheetBuilding.SpliceKeepsOrder | tablib/formats/_ods.py:59-61 | The original rows appear in the result in their relative order, under a strictly increasing embedding |
| SheetBuilding.SpliceFront | tablib/formats/_ods.py:59-61 | A first separator at index 0, with later ones at index 1 or more, becomes the first row, and the first original row follows it |
| SheetBuilding.SpliceCellCount | tablib/formats/_ods.py:59-72 | Each separator adds exactly one cell |
| SheetBuilding.WrittenCell | tablib/formats/_ods.py:74-101 | A written cell holds its value and is bold exactly in the header row; elsewhere it is a plain paragraph, whether or not the text contains a newline and whether or not it is text |
| SheetBuilding.RenderContents | tablib/formats/_ods.py:63-101 | The sheet holds exactly the non-empty rows' values, in order and cell by cell |
| SheetBuilding.RenderBold | tablib/formats/_ods.py:74-82 | A written cell is bold exactly when it is in the first row, that row is row 0 of the spliced list, and the dataset has headers |
| SheetBuilding.RenderFront | tablib/formats/_ods.py:63-82 | When the first two rows hold cells, they are written first and second, and only the first may be bold |
| SheetBuilding.WriteRow | tablib/formats/_ods.py:65-101 | Writing a row adds one column declaration per value and one row holding every value with the row's style, and adds no row when there are no values |
| SheetBuilding.DsetSheet | tablib/formats/_ods.py:55-101 | The sheet keeps its name, gains one column declaration per cell of the spliced rows, and gains the rendered spliced rows, bold in row 0 when the dataset has headers |
| SheetBuilding.ColumnDeclarations | tablib/formats/_ods.py:72 | The column declarations number the headers plus all data cells plus the separators: one per cell, not one per column |
| SheetBuilding.SeparatorAtZeroTakesBold | tablib/formats/_ods.py:59-82 | With headers, a separator at index 0 is written as the bold first row and the header row follows in plain cells |
| SheetBuilding.Worksheet.AddColumn | tablib/formats/_ods.py:72 | Adding a column declaration increments the count and leaves the rows alone |
| SheetBuilding.Worksheet.AddRow | tablib/formats/_ods.py:77 | Adding a row element not yet in the sheet appends an empty row and leaves the name and column count alone |
| SheetBuilding.Worksheet.AddCell | tablib/formats/_ods.py:78-82 | A cell goes to the end of the row element last added to the sheet |
| SheetNaming.Decimal | tablib/formats/_ods.py:45 | `str(i)` is a non-empty string of digits without a leading zero |
| SheetNaming.ParseDecimalOfDecimal | tablib/formats/_ods.py:45 | The decimal spelling of i reads back as i |
| SheetNaming.DatasetSheetName | tablib/formats/_ods.py:29 | A single dataset's table is named after its title when the title is non-empty, and otherwise "Tablib Dataset" |
| SheetNaming.BookSheetName | tablib/formats/_ods.py:45 | A book's table is named after the title when it is non-empty, and otherwise "Sheet" followed by its zero-based position |
| SheetNaming.UntitledBookNames | tablib/formats/_ods.py:45 | An untitled table's name reads back as its position, so two untitled sheets of a book never share a name |
| OdsExport.NewSheet | tablib/formats/_ods.py:45-47 | A new table with the given name holds exactly what the sheet builder writes for the dataset |
| OdsExport.ExportSet | tablib/formats/_ods.py:23-35 | The exported table is named by the single-dataset rule and holds the built sheet |
| OdsExport.ExportBook | tablib/formats/_ods.py:38-52 | One fresh table per dataset, no two the same object, in the book's order, each named by the book rule for its position and holding its built sheet |

## Left out

- Building the ODF document, registering the bold style, `wb.save` to a byte stream and `opendocument.load` belong to the odfpy library (XML and ZIP). The exporters return their tables, and the importers take the loaded tables as values.
- The bold style object is modelled as the flag `SheetCell.bold`. The source gives every row element `stylename=bold` and `defaultcellstylename='bold'`, whatever its position. Neither row attribute is modelled, because both are the same on every row.
- Column declarations are counted, not placed. In the document they are interleaved with the rows they precede.
- The row element is shared between the builder and the sheet. The source re-adds it after each column declaration. Re-adding an element that already has a parent detaches it and appends it again, so the row sits once in the sheet, after all of its column declarations. The model appends the row once, with its first cell, and does not model the detach-and-append steps (`SheetBuilding.WriteRow`).
- `detect` is a catch-all around the library loader and has no logic of its own.
- `import_book` is not modelled. It calls `xlrd` and `tablib`, which this file does not import, so it fails before reading any table. Its loop would only repeat `_import_set`.
- The parse in `float(value)` is not modelled, and neither is its `ValueError` on a malformed number. A numeric cell decodes to `Float(literal)`, which stands for the float Python reads from that literal.
- The `unicode(col, errors='ignore')` attempt is not modelled: a value is written as itself. Turning it into text is left to the document library.
- The Python-version import switch is not modelled.
- SheetImport.RepeatCount and SheetImport.Width take the column-repeat count as an integer already converted by the document library. If the library hands the attribute over as text, as it does for the other attributes, then `"0" or 1` stays `"0"`, and `[v] * "3"` raises TypeError. The model does not capture that path.
- The dataset container is taken as given: its row-width validation on `append` and on `headers`, its formatters in `_package`, and how it stores an empty header list. Headers are a sequence, and `[]` stands for "no headers".
- Tables come with their rows and cells already listed in document order, as `getElementsByType` returns them. The DOM search itself is not modelled. A cell's paragraphs are given with their direct child nodes, and only text nodes are read from them.
