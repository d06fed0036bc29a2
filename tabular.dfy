/**
 * The dataset container as the ODS adapter uses it: a title, headers, data
 * rows and separator markers.  The container's own validation (row widths)
 * and formatters belong to the dataset library and are not modelled.
 */
module Tabular {
  import opened Wrappers

  /** A cell value as it crosses the adapter. */
  datatype Value =
    | Null                    // Python None
    | Text(s: string)         // a str
    | Float(literal: string)  // float(literal); the parse itself is not modelled
    | Bool(b: bool)

  type Row = seq<Value>

  /**
   * A labelled divider row.  The i-th separator of the list is inserted with
   * `list.insert(index + i, ...)`, so it lands at `index + i`, clamped to the rows.
   */
  datatype Separator = Separator(index: int, text: Value)

  /**
   * The packaged row list (`_package(dicts=False)`): the headers as row 0
   * when there are any, then the data rows.
   */
  function Packaged(headers: Row, rows: seq<Row>): (p: seq<Row>)
  {
    if |headers| > 0 then [headers] + rows else rows
  }

  /** Number of cells over all rows. */
  function CellCount(rows: seq<Row>): (n: nat)
  {
    if rows == [] then 0 else CellCount(rows[..|rows| - 1]) + |rows[|rows| - 1]|
  }

  lemma {:induction false} CellCountAppend(a: seq<Row>, b: seq<Row>)
    ensures CellCount(a + b) == CellCount(a) + CellCount(b)
    decreases |b|
  {
    if b == [] {
      assert a + b == a;
    } else {
      var n := |b| - 1;
      assert (a + b)[..|a + b| - 1] == a + b[..n];
      CellCountAppend(a, b[..n]);
    }
  }

  /** Headers add one cell per header to the packaged row list. */
  lemma PackagedCellCount(headers: Row, rows: seq<Row>)
    ensures CellCount(Packaged(headers, rows)) == |headers| + CellCount(rows)
    ensures |Packaged(headers, rows)| == |rows| + (if |headers| > 0 then 1 else 0)
  {
    if |headers| > 0 {
      CellCountAppend([headers], rows);
      assert [headers][..0] == [];
    }
  }

  class Dataset {
    var title: Option<string>
    /** The headers; [] stands for "no headers" (the container stores an empty list as None). */
    var headers: Row
    var rows: seq<Row>
    var separators: seq<Separator>

    function Package(): (p: seq<Row>)
      reads this
    {
      Packaged(headers, rows)
    }

    /** Removes all data rows and headers; title and separators stay. */
    method Wipe()
      modifies this
      ensures rows == [] && headers == []
      ensures title == old(title) && separators == old(separators)
    {
      rows := [];
      headers := [];
    }
  }
}
