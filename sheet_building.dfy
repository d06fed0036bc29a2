/**
 * Filling one worksheet from a dataset (`dset_sheet`): separator rows are
 * spliced into the packaged rows, then every cell becomes a paragraph in a
 * table cell, bold in row 0 when the dataset has headers, and every cell
 * adds one column declaration.
 */
module SheetBuilding {
  import opened Tabular
  import opened PyList

  /**
   * The rows after the separators are spliced in: the i-th separator goes
   * in as a one-cell row at its index plus i, with list.insert's clamping.
   */
  function Splice(rows: seq<Row>, seps: seq<Separator>): (r: seq<Row>)
  {
    if seps == [] then rows
    else
      var n := |seps| - 1;
      Insert(Splice(rows, seps[..n]), seps[n].index + n, [seps[n].text])
  }

  /** Every separator adds exactly one row. */
  lemma {:induction false} SpliceLength(rows: seq<Row>, seps: seq<Separator>)
    ensures |Splice(rows, seps)| == |rows| + |seps|
    decreases |seps|
  {
    if seps != [] {
      SpliceLength(rows, seps[..|seps| - 1]);
    }
  }

  /** When it is inserted, the i-th separator lands at its index plus i (clamped into the list). */
  lemma SpliceInsertsAt(rows: seq<Row>, seps: seq<Separator>, i: nat)
    requires i < |seps|
    ensures InsertPosition(|rows| + i, seps[i].index + i) < |Splice(rows, seps[..i + 1])|
    ensures Splice(rows, seps[..i + 1])[InsertPosition(|rows| + i, seps[i].index + i)] == [seps[i].text]
  {
    assert seps[..i + 1][..i] == seps[..i];
    SpliceLength(rows, seps[..i]);
  }

  /**
   * With separators registered in ascending order of in-range indices, each
   * one ends up at its index plus the number of separators before it.
   */
  lemma {:induction false} SpliceSortedAt(rows: seq<Row>, seps: seq<Separator>)
    requires forall j :: 0 <= j < |seps| ==> 0 <= seps[j].index <= |rows|
    requires forall a, b :: 0 <= a < b < |seps| ==> seps[a].index <= seps[b].index
    ensures forall i :: 0 <= i < |seps| ==>
              seps[i].index + i < |Splice(rows, seps)| && Splice(rows, seps)[seps[i].index + i] == [seps[i].text]
    decreases |seps|
  {
    if seps != [] {
      var n := |seps| - 1;
      var init := seps[..n];
      SpliceSortedAt(rows, init);
      SpliceLength(rows, init);
      SpliceLength(rows, seps);
      forall i | 0 <= i < |seps|
        ensures seps[i].index + i < |Splice(rows, seps)| && Splice(rows, seps)[seps[i].index + i] == [seps[i].text]
      {
        if i < n {
          assert init[i] == seps[i];
        }
      }
    }
  }

  /** The original rows keep their relative order: f embeds them, strictly increasing, into the result. */
  lemma {:induction false} SpliceKeepsOrder(rows: seq<Row>, seps: seq<Separator>) returns (f: seq<nat>)
    ensures |f| == |rows|
    ensures forall k :: 0 <= k < |f| ==> f[k] < |Splice(rows, seps)| && Splice(rows, seps)[f[k]] == rows[k]
    ensures forall a, b :: 0 <= a < b < |f| ==> f[a] < f[b]
    decreases |seps|
  {
    if seps == [] {
      f := seq(|rows|, k requires 0 <= k < |rows| => k);
    } else {
      var n := |seps| - 1;
      var g := SpliceKeepsOrder(rows, seps[..n]);
      var before := Splice(rows, seps[..n]);
      var p := InsertPosition(|before|, seps[n].index + n);
      f := seq(|g|, k requires 0 <= k < |g| => if g[k] < p then g[k] else g[k] + 1);
    }
  }

  /** Separators add one cell each to the cell count. */
  lemma {:induction false} SpliceCellCount(rows: seq<Row>, seps: seq<Separator>)
    ensures CellCount(Splice(rows, seps)) == CellCount(rows) + |seps|
    decreases |seps|
  {
    if seps != [] {
      var n := |seps| - 1;
      var s := Splice(rows, seps[..n]);
      SpliceCellCount(rows, seps[..n]);
      var p := InsertPosition(|s|, seps[n].index + n);
      var x := [seps[n].text];
      assert s == s[..p] + s[p..];
      CellCountAppend(s[..p], s[p..]);
      CellCountAppend(s[..p] + [x], s[p..]);
      CellCountAppend(s[..p], [x]);
      assert [x][..0] == [];
    }
  }

  /**
   * A first separator at index 0, with every later one at index 1 or more,
   * becomes row 0 and pushes the first original row to position 1.
   */
  lemma {:induction false} SpliceFront(rows: seq<Row>, seps: seq<Separator>)
    requires |rows| > 0 && |seps| > 0 && seps[0].index == 0
    requires forall j :: 1 <= j < |seps| ==> seps[j].index >= 1
    ensures |Splice(rows, seps)| >= 2
    ensures Splice(rows, seps)[0] == [seps[0].text] && Splice(rows, seps)[1] == rows[0]
    decreases |seps|
  {
    var n := |seps| - 1;
    if n == 0 {
      assert seps[..0] == [];
    } else {
      var init := seps[..n];
      assert init[0] == seps[0];
      SpliceFront(rows, init);
      SpliceLength(rows, init);
    }
  }

  /** A written cell: its value and whether it is set in the bold span style. */
  datatype SheetCell = SheetCell(content: Value, bold: bool)

  /**
   * The cell written for value v: in the header row, the value as rich text
   * in the bold style; anywhere else, a plain paragraph.  The branch on an
   * embedded newline, and the handler for a value that is not text, all
   * write the same plain cell.
   */
  function WrittenCell(v: Value, header: bool): (c: SheetCell)
    ensures c.content == v
    ensures c.bold <==> header
  {
    if header then SheetCell(v, true)
    else
      match v
      case Text(s) => if '\n' in s then SheetCell(v, false) else SheetCell(v, false)
      case _ => SheetCell(v, false)
  }

  function RowCells(row: Row, bold: bool): (r: seq<SheetCell>)
  {
    seq(|row|, k requires 0 <= k < |row| => SheetCell(row[k], bold))
  }

  /**
   * The worksheet rows written for `rows`: a row reaches the sheet when its
   * first cell is written, so a row without cells leaves no trace; row 0 is
   * bold when `boldFirst`.
   */
  function Render(rows: seq<Row>, boldFirst: bool): (r: seq<seq<SheetCell>>)
  {
    if rows == [] then []
    else
      var n := |rows| - 1;
      Render(rows[..n], boldFirst) + (if rows[n] == [] then [] else [RowCells(rows[n], boldFirst && n == 0)])
  }

  /** The rows that hold at least one cell, in order. */
  function NonEmptyRows(rows: seq<Row>): (r: seq<Row>)
  {
    if rows == [] then []
    else
      var n := |rows| - 1;
      NonEmptyRows(rows[..n]) + (if rows[n] == [] then [] else [rows[n]])
  }

  function Contents(cells: seq<SheetCell>): (r: Row)
  {
    seq(|cells|, k requires 0 <= k < |cells| => cells[k].content)
  }

  /** The sheet holds exactly the values of the non-empty rows, in order and cell by cell. */
  lemma {:induction false} RenderContents(rows: seq<Row>, boldFirst: bool)
    ensures |Render(rows, boldFirst)| == |NonEmptyRows(rows)|
    ensures forall i :: 0 <= i < |Render(rows, boldFirst)| ==>
              Contents(Render(rows, boldFirst)[i]) == NonEmptyRows(rows)[i]
    decreases |rows|
  {
    if rows != [] {
      var n := |rows| - 1;
      RenderContents(rows[..n], boldFirst);
      assert Contents(RowCells(rows[n], boldFirst && n == 0)) == rows[n];
    }
  }

  /** A cell is bold exactly when it is in row 0 of the sheet, row 0 came from row 0 of the input, and boldFirst holds. */
  lemma {:induction false} RenderBold(rows: seq<Row>, boldFirst: bool)
    ensures forall i, k :: 0 <= i < |Render(rows, boldFirst)| && 0 <= k < |Render(rows, boldFirst)[i]| ==>
              (Render(rows, boldFirst)[i][k].bold <==> boldFirst && i == 0 && rows[0] != [])
    decreases |rows|
  {
    if rows != [] {
      var n := |rows| - 1;
      if rows[0] == [] {
        EmptyFrontNotRendered(rows, boldFirst);
      } else if n == 0 {
        assert Render(rows[..n], boldFirst) == [];
      } else {
        var init := rows[..n];
        assert init[0] == rows[0] && init[..1] == [rows[0]] && init[..1][..0] == [];
        RenderPrefix(init, 1, boldFirst);
        assert |Render(init[..1], boldFirst)| == 1;
        RenderBold(init, boldFirst);
      }
    }
  }

  lemma {:induction false} EmptyFrontNotRendered(rows: seq<Row>, boldFirst: bool)
    requires |rows| > 0 && rows[0] == []
    ensures forall i, k :: 0 <= i < |Render(rows, boldFirst)| && 0 <= k < |Render(rows, boldFirst)[i]| ==>
              !Render(rows, boldFirst)[i][k].bold
    decreases |rows|
  {
    var n := |rows| - 1;
    if n > 0 {
      assert rows[..n][0] == rows[0];
      EmptyFrontNotRendered(rows[..n], boldFirst);
    }
  }

  /** When the first two rows hold cells, they are the sheet's first two rows, and only the first is bold. */
  lemma RenderFront(rows: seq<Row>, boldFirst: bool)
    requires |rows| >= 2 && rows[0] != [] && rows[1] != []
    ensures |Render(rows, boldFirst)| >= 2
    ensures Render(rows, boldFirst)[0] == RowCells(rows[0], boldFirst)
    ensures Render(rows, boldFirst)[1] == RowCells(rows[1], false)
  {
    RenderPrefix(rows, 2, boldFirst);
    var two := rows[..2];
    assert two[..1] == [rows[0]] && two[..1][..0] == [];
    assert Render(two[..1], boldFirst) == [RowCells(rows[0], boldFirst)];
    assert Render(two, boldFirst) == [RowCells(rows[0], boldFirst), RowCells(rows[1], false)];
  }

  /** Writing more rows only appends to what the earlier rows wrote. */
  lemma {:induction false} RenderPrefix(rows: seq<Row>, m: nat, boldFirst: bool)
    requires m <= |rows|
    ensures Render(rows[..m], boldFirst) <= Render(rows, boldFirst)
    decreases |rows| - m
  {
    if m < |rows| {
      assert rows[..m + 1][..m] == rows[..m];
      RenderPrefix(rows, m + 1, boldFirst);
    } else {
      assert rows[..m] == rows;
    }
  }

  /** The table:table element being filled: its name, its column declarations and its rows. */
  class Worksheet {
    var name: string
    var columns: nat
    var rows: seq<seq<SheetCell>>

    constructor (name: string)
      ensures this.name == name && columns == 0 && rows == []
    {
      this.name := name;
      columns := 0;
      rows := [];
    }

    /** `ws.addElement(table.TableColumn())`. */
    method AddColumn()
      modifies this
      ensures columns == old(columns) + 1
      ensures name == old(name) && rows == old(rows)
    {
      columns := columns + 1;
    }

    /** `ws.addElement(odf_row)` for a row element not yet in the sheet. */
    method AddRow()
      modifies this
      ensures rows == old(rows) + [[]]
      ensures name == old(name) && columns == old(columns)
    {
      rows := rows + [[]];
    }

    /** `odf_row.addElement(cell)` on the row element last added to the sheet. */
    method AddCell(c: SheetCell)
      requires |rows| > 0
      modifies this
      ensures rows == old(rows[..|rows| - 1]) + [old(rows[|rows| - 1]) + [c]]
      ensures name == old(name) && columns == old(columns)
    {
      rows := rows[..|rows| - 1] + [rows[|rows| - 1] + [c]];
    }
  }

  /** The rows `dset_sheet` writes for a dataset, after splicing. */
  function SplicedPackage(dataset: Dataset): (r: seq<Row>)
    reads dataset
  {
    Splice(dataset.Package(), dataset.separators)
  }

  /** `dset_sheet`, lines 59-61: `_package.insert(sep[0] + i, (sep[1],))` for the i-th separator. */
  method SpliceSeparators(package: seq<Row>, seps: seq<Separator>) returns (spliced: seq<Row>)
    ensures spliced == Splice(package, seps)
  {
    spliced := package;
    var i := 0;
    while i < |seps|
      invariant 0 <= i <= |seps|
      invariant spliced == Splice(package, seps[..i])
    {
      assert seps[..i + 1][..i] == seps[..i];
      var offset := i;
      spliced := Insert(spliced, seps[i].index + offset, [seps[i].text]);
      i := i + 1;
    }
    assert seps[..i] == seps;
  }

  /**
   * `dset_sheet`, lines 65-101, for one row: a column declaration and a
   * cell per value.  The source re-adds the row element to the sheet after
   * each column declaration; re-adding an element that already has a parent
   * detaches it and appends it again, so the sheet holds the row once, after
   * all of its column declarations.  The row first appears with its first
   * cell, and a row without values is never added.
   */
  method WriteRow(ws: Worksheet, row: Row, header: bool)
    modifies ws
    ensures ws.name == old(ws.name)
    ensures ws.columns == old(ws.columns) + |row|
    ensures ws.rows == old(ws.rows) + (if row == [] then [] else [RowCells(row, header)])
  {
    var added := false;
    var j := 0;
    while j < |row|
      invariant 0 <= j <= |row|
      invariant added <==> j > 0
      invariant ws.name == old(ws.name)
      invariant ws.columns == old(ws.columns) + j
      invariant ws.rows == old(ws.rows) + (if j == 0 then [] else [RowCells(row[..j], header)])
    {
      var col := row[j];
      ws.AddColumn();
      var cell := WrittenCell(col, header);
      if !added {
        ws.AddRow();
        added := true;
      }
      ws.AddCell(cell);
      assert RowCells(row[..j + 1], header) == RowCells(row[..j], header) + [cell];
      j := j + 1;
    }
    assert row[..j] == row;
  }

  /**
   * `dset_sheet`: splice the separators into the packaged rows, then write
   * every row, bold in row 0 when the dataset has headers.
   */
  method DsetSheet(dataset: Dataset, ws: Worksheet)
    modifies ws
    ensures ws.name == old(ws.name)
    ensures ws.columns == old(ws.columns) + CellCount(SplicedPackage(dataset))
    ensures ws.rows == old(ws.rows) + Render(SplicedPackage(dataset), |dataset.headers| > 0)
  {
    var package := SpliceSeparators(dataset.Package(), dataset.separators);
    var bold := |dataset.headers| > 0;
    var i := 0;
    while i < |package|
      invariant 0 <= i <= |package|
      invariant ws.name == old(ws.name)
      invariant ws.columns == old(ws.columns) + CellCount(package[..i])
      invariant ws.rows == old(ws.rows) + Render(package[..i], bold)
    {
      WriteRow(ws, package[i], i == 0 && bold);
      assert package[..i + 1][..i] == package[..i];
      i := i + 1;
    }
    assert package[..i] == package;
  }

  /**
   * Column declarations come one per written cell: every header, every data
   * cell and one per separator, not one per logical column.
   */
  lemma ColumnDeclarations(headers: Row, rows: seq<Row>, seps: seq<Separator>)
    ensures CellCount(Splice(Packaged(headers, rows), seps)) == |headers| + CellCount(rows) + |seps|
  {
    SpliceCellCount(Packaged(headers, rows), seps);
    PackagedCellCount(headers, rows);
  }

  /**
   * With headers, a separator registered at index 0 takes row 0 and with it
   * the bold style; the header row follows in plain cells.
   */
  lemma SeparatorAtZeroTakesBold(headers: Row, rows: seq<Row>, seps: seq<Separator>)
    requires |headers| > 0 && |seps| > 0 && seps[0].index == 0
    requires forall j :: 1 <= j < |seps| ==> seps[j].index >= 1
    ensures |Render(Splice(Packaged(headers, rows), seps), true)| >= 2
    ensures Render(Splice(Packaged(headers, rows), seps), true)[0] == [SheetCell(seps[0].text, true)]
    ensures Render(Splice(Packaged(headers, rows), seps), true)[1] == RowCells(headers, false)
  {
    var p := Splice(Packaged(headers, rows), seps);
    SpliceFront(Packaged(headers, rows), seps);
    RenderFront(p, true);
  }
}
