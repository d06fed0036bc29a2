/**
 * The exporters (`export_set`, `export_book`): one named table per dataset,
 * filled by the sheet builder.  Serialising the document to bytes is the
 * document library's and is not modelled: the result is the list of tables.
 */
module OdsExport {
  import opened Tabular
  import opened SheetNaming
  import opened SheetBuilding

  /** The table `name` holds what the sheet builder writes for `dataset`. */
  ghost predicate SheetOf(ws: Worksheet, dataset: Dataset, name: string)
    reads ws, dataset
  {
    && ws.name == name
    && ws.columns == CellCount(SplicedPackage(dataset))
    && ws.rows == Render(SplicedPackage(dataset), |dataset.headers| > 0)
  }

  /** `table.Table(name=...)` followed by `dset_sheet(dataset, ws)`. */
  method NewSheet(dataset: Dataset, name: string) returns (ws: Worksheet)
    ensures fresh(ws) && SheetOf(ws, dataset, name)
  {
    ws := new Worksheet(name);
    DsetSheet(dataset, ws);
  }

  /** `export_set`: a single table named after the dataset, or "Tablib Dataset". */
  method ExportSet(dataset: Dataset) returns (ws: Worksheet)
    ensures fresh(ws) && SheetOf(ws, dataset, DatasetSheetName(dataset.title))
  {
    ws := NewSheet(dataset, if HasTitle(dataset.title) then dataset.title.value else DefaultName);
  }

  /** `export_book`: one new table per dataset, no two the same, in the book's order, untitled ones named by position. */
  method ExportBook(book: seq<Dataset>) returns (sheets: seq<Worksheet>)
    ensures |sheets| == |book|
    ensures forall i :: 0 <= i < |book| ==> fresh(sheets[i])
    ensures forall i, j :: 0 <= i < j < |sheets| ==> sheets[i] != sheets[j]
    ensures forall i :: 0 <= i < |book| ==> SheetOf(sheets[i], book[i], BookSheetName(book[i].title, i))
  {
    sheets := [];
    var i := 0;
    while i < |book|
      invariant 0 <= i <= |book| && |sheets| == i
      invariant forall k :: 0 <= k < i ==> fresh(sheets[k])
      invariant forall k, m :: 0 <= k < m < i ==> sheets[k] != sheets[m]
      invariant forall k :: 0 <= k < i ==> SheetOf(sheets[k], book[k], BookSheetName(book[k].title, k))
    {
      var dset := book[i];
      var ws := NewSheet(dset, if HasTitle(dset.title) then dset.title.value else BookPrefix + Decimal(i));
      sheets := sheets + [ws];
      i := i + 1;
    }
  }
}
