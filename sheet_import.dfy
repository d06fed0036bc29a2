/**
 * Reading one table into a dataset (`_import_set`, `import_set`): the title
 * comes from the table's name, every cell is decoded and repeated as many
 * times as its column-repeat count says, row 0 may become the headers and
 * the other rows are appended in document order.
 */
module SheetImport {
  import opened Wrappers
  import opened Tabular
  import opened CellDecoding

  /** A table:table element: its name and its rows of cells, in document order. */
  datatype Table = Table(name: Option<string>, rows: seq<seq<Cell>>)

  /** `repeat = cell.getAttribute("numbercolumnsrepeated") or 1`: an absent or zero count reads as 1. */
  function RepeatCount(c: Cell): (n: int)
    ensures n != 0
    ensures c.repeat.None? ==> n == 1
    ensures c.repeat == Some(0) ==> n == 1
    ensures c.repeat.Some? && c.repeat.value != 0 ==> n == c.repeat.value
  {
    match c.repeat
    case None => 1
    case Some(n) => if n == 0 then 1 else n
  }

  /** `[v] * n`: n copies, none at all when n is not positive. */
  function Repeated(v: Value, n: int): (r: Row)
    ensures |r| == if n > 0 then n else 0
    ensures forall k :: 0 <= k < |r| ==> r[k] == v
  {
    if n <= 0 then [] else Repeated(v, n - 1) + [v]
  }

  /** How many values a cell contributes to its row. */
  function Width(c: Cell): (n: nat)
    ensures c.repeat.None? || c.repeat == Some(0) ==> n == 1
    ensures c.repeat.Some? && c.repeat.value > 0 ==> n == c.repeat.value
    ensures c.repeat.Some? && c.repeat.value < 0 ==> n == 0
  {
    |Repeated(Null, RepeatCount(c))|
  }

  /** The sum of the cells' widths. */
  function TotalWidth(cells: seq<Cell>): (n: nat)
  {
    if cells == [] then 0 else TotalWidth(cells[..|cells| - 1]) + Width(cells[|cells| - 1])
  }

  /** The values of one row, or the error of its first cell that fails to decode. */
  function ExpandRow(cells: seq<Cell>): (r: Result<Row, ImportError>)
  {
    if cells == [] then Ok([])
    else
      match ExpandRow(cells[..|cells| - 1])
      case Err(e) => Err(e)
      case Ok(vs) =>
        var last := cells[|cells| - 1];
        match DecodeCell(last)
        case Err(e) => Err(e)
        case Ok(v) => Ok(vs + Repeated(v, RepeatCount(last)))
  }

  /** The row fails exactly when one of its cells carries an unknown tag, and then with the first such tag. */
  lemma {:induction false} ExpandRowFails(cells: seq<Cell>)
    ensures ExpandRow(cells).Err? <==> exists k :: 0 <= k < |cells| && DecodeCell(cells[k]).Err?
    ensures ExpandRow(cells).Err? ==>
              exists k :: 0 <= k < |cells| && DecodeCell(cells[k]) == Err(ExpandRow(cells).error)
                && forall m :: 0 <= m < k ==> DecodeCell(cells[m]).Ok?
    decreases |cells|
  {
    if cells != [] {
      var n := |cells| - 1;
      var init := cells[..n];
      ExpandRowFails(init);
      assert forall k :: 0 <= k < n ==> init[k] == cells[k];
      if ExpandRow(init).Err? {
        var k :| 0 <= k < |init| && DecodeCell(init[k]) == Err(ExpandRow(init).error)
          && forall m :: 0 <= m < k ==> DecodeCell(init[m]).Ok?;
        assert DecodeCell(cells[k]) == Err(ExpandRow(cells).error);
      } else if DecodeCell(cells[n]).Err? {
        assert forall m :: 0 <= m < n ==> DecodeCell(cells[m]).Ok?;
      }
    }
  }

  /** A decoded row holds exactly the sum of the cells' widths. */
  lemma {:induction false} ExpandRowLength(cells: seq<Cell>)
    requires ExpandRow(cells).Ok?
    ensures |ExpandRow(cells).value| == TotalWidth(cells)
    decreases |cells|
  {
    if cells != [] {
      ExpandRowLength(cells[..|cells| - 1]);
    }
  }

  /** Cell k's copies sit right after the values of the cells before it. */
  lemma {:induction false} ExpandRowAt(cells: seq<Cell>, k: nat, m: nat)
    requires ExpandRow(cells).Ok? && k < |cells| && m < Width(cells[k])
    ensures TotalWidth(cells[..k]) + m < |ExpandRow(cells).value|
    ensures DecodeCell(cells[k]).Ok?
    ensures ExpandRow(cells).value[TotalWidth(cells[..k]) + m] == DecodeCell(cells[k]).value
    decreases |cells|
  {
    var n := |cells| - 1;
    var init := cells[..n];
    ExpandRowLength(init);
    if k < n {
      assert init[..k] == cells[..k];
      ExpandRowAt(init, k, m);
      assert init[k] == cells[k];
    } else {
      assert cells[..k] == init;
    }
  }

  /** The body of the inner loop of `_import_set`: `values.extend([getvalue(cell)] * repeat)` per cell. */
  method RowValues(cells: seq<Cell>) returns (r: Result<Row, ImportError>)
    ensures r == ExpandRow(cells)
  {
    var values: Row := [];
    var k := 0;
    while k < |cells|
      invariant 0 <= k <= |cells|
      invariant ExpandRow(cells[..k]) == Ok(values)
    {
      assert cells[..k + 1][..k] == cells[..k];
      var repeat := RepeatCount(cells[k]);
      var v := DecodeCell(cells[k]);
      if v.Err? {
        ExpandRowStaysFailed(cells, k + 1);
        return Err(v.error);
      }
      values := values + Repeated(v.value, repeat);
      k := k + 1;
    }
    assert cells[..k] == cells;
    r := Ok(values);
  }

  /** Once a prefix of the row fails, the whole row fails with the same error. */
  lemma {:induction false} ExpandRowStaysFailed(cells: seq<Cell>, j: nat)
    requires j <= |cells| && ExpandRow(cells[..j]).Err?
    ensures ExpandRow(cells) == ExpandRow(cells[..j])
    decreases |cells| - j
  {
    if j < |cells| {
      assert cells[..j + 1][..j] == cells[..j];
      ExpandRowStaysFailed(cells, j + 1);
    } else {
      assert cells[..j] == cells;
    }
  }

  /** What an import gets through: the rows decoded before the first failing row, and that failure. */
  datatype Decoded = Decoded(rows: seq<Row>, failure: Option<ImportError>)

  function DecodeRows(rows: seq<seq<Cell>>): (d: Decoded)
    ensures |d.rows| <= |rows|
    ensures d.failure.None? <==> |d.rows| == |rows|
  {
    if rows == [] then Decoded([], None)
    else
      var d := DecodeRows(rows[..|rows| - 1]);
      if d.failure.Some? then d
      else
        match ExpandRow(rows[|rows| - 1])
        case Err(e) => Decoded(d.rows, Some(e))
        case Ok(vs) => Decoded(d.rows + [vs], None)
  }

  /** Every decoded row is its table row's values; a failure is the error of the first row that does not decode. */
  lemma {:induction false} DecodeRowsSpec(rows: seq<seq<Cell>>)
    ensures var d := DecodeRows(rows);
      && (forall i :: 0 <= i < |d.rows| ==> ExpandRow(rows[i]) == Ok(d.rows[i]))
      && (d.failure.Some? ==> ExpandRow(rows[|d.rows|]) == Err(d.failure.value))
    decreases |rows|
  {
    if rows != [] {
      var init := rows[..|rows| - 1];
      DecodeRowsSpec(init);
      assert forall i :: 0 <= i < |init| ==> init[i] == rows[i];
    }
  }

  /** Once a prefix of the table fails, the rows after it are never read. */
  lemma {:induction false} DecodeRowsPrefix(rows: seq<seq<Cell>>, j: nat)
    requires j <= |rows| && DecodeRows(rows[..j]).failure.Some?
    ensures DecodeRows(rows) == DecodeRows(rows[..j])
    decreases |rows| - j
  {
    if j < |rows| {
      assert rows[..j + 1][..j] == rows[..j];
      DecodeRowsPrefix(rows, j + 1);
    } else {
      assert rows[..j] == rows;
    }
  }

  /** The state `_import_set` leaves behind after the decoded rows `done`. */
  ghost predicate Imported(dset: Dataset, headers: bool, done: seq<Row>,
                           headers0: Row, rows0: seq<Row>)
    reads dset
  {
    if headers && |done| > 0 then dset.headers == done[0] && dset.rows == rows0 + done[1..]
    else dset.headers == headers0 && dset.rows == rows0 + done
  }

  /**
   * `_import_set`: the title becomes the table's name; with `headers` set,
   * row 0 replaces the headers and every later row is appended, otherwise
   * every row is appended.  An unknown tag stops the import where it is
   * found: the title and the rows before it are already in place.
   */
  method ImportSheet(dset: Dataset, sht: Table, headers: bool) returns (err: Option<ImportError>)
    modifies dset
    ensures dset.title == sht.name
    ensures dset.separators == old(dset.separators)
    ensures err == DecodeRows(sht.rows).failure
    ensures Imported(dset, headers, DecodeRows(sht.rows).rows, old(dset.headers), old(dset.rows))
  {
    dset.title := sht.name;
    var i := 0;
    while i < |sht.rows|
      invariant 0 <= i <= |sht.rows|
      invariant dset.title == sht.name && dset.separators == old(dset.separators)
      invariant DecodeRows(sht.rows[..i]).failure.None?
      invariant Imported(dset, headers, DecodeRows(sht.rows[..i]).rows, old(dset.headers), old(dset.rows))
    {
      ghost var done := DecodeRows(sht.rows[..i]).rows;
      assert sht.rows[..i + 1][..i] == sht.rows[..i];
      var values := RowValues(sht.rows[i]);
      if values.Err? {
        DecodeRowsPrefix(sht.rows, i + 1);
        return Some(values.error);
      }
      assert DecodeRows(sht.rows[..i + 1]).rows == done + [values.value];
      if i == 0 && headers {
        dset.headers := values.value;
      } else {
        dset.rows := dset.rows + [values.value];
        assert headers && |done| > 0 ==> (done + [values.value])[1..] == done[1..] + [values.value];
      }
      i := i + 1;
    }
    assert sht.rows[..i] == sht.rows;
    err := None;
  }

  /**
   * `import_set`: wipe the dataset, then read the document's first table;
   * a document without tables fails on indexing it.
   */
  method ImportSet(dset: Dataset, tables: seq<Table>, headers: bool) returns (err: Option<ImportError>)
    modifies dset
    ensures tables == [] ==> err == Some(IndexError) && dset.rows == [] && dset.headers == []
                               && dset.title == old(dset.title)
    ensures tables != [] ==>
              && dset.title == tables[0].name
              && err == DecodeRows(tables[0].rows).failure
              && Imported(dset, headers, DecodeRows(tables[0].rows).rows, [], [])
    ensures dset.separators == old(dset.separators)
  {
    dset.Wipe();
    if tables == [] {
      return Some(IndexError);
    }
    err := ImportSheet(dset, tables[0], headers);
  }
}
