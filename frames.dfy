/** A pandas DataFrame as the model sees it: a header of column names and a sequence of rows,
    each row mapping a column name to a cell that is missing (NaN) or holds a value. */
module Frames {
  import opened Wrappers
  import opened Values
  import opened Seqs

  /** A cell: None is pandas' missing value (NaN / None). */
  type Cell = Option<Value>

  type Row = map<string, Cell>

  datatype Frame = Frame(columns: seq<string>, rows: seq<Row>)

  /** The cell of a row in column `c`. */
  function Get(r: Row, c: string): Cell
  {
    if c in r then r[c] else None
  }

  /** Column names are distinct and every row has exactly the header's columns. */
  predicate WellFormed(f: Frame)
  {
    && NoDuplicates(f.columns)
    && forall i :: 0 <= i < |f.rows| ==> f.rows[i].Keys == set c | c in f.columns
  }

  /** `df[c]` as a sequence of cells, one per row. */
  function Column(f: Frame, c: string): (col: seq<Cell>)
    ensures |col| == |f.rows|
    ensures forall i :: 0 <= i < |f.rows| ==> col[i] == Get(f.rows[i], c)
  {
    CellsOf(f.rows, c)
  }

  /** `df[c] = values`: the column is replaced, or appended to the header when it is new. */
  function WithColumn(f: Frame, c: string, values: seq<Cell>): (g: Frame)
    requires |values| == |f.rows|
    ensures |g.rows| == |f.rows|
    ensures g.columns == if c in f.columns then f.columns else f.columns + [c]
    ensures forall i, d :: 0 <= i < |f.rows| ==>
              Get(g.rows[i], d) == if d == c then values[i] else Get(f.rows[i], d)
  {
    Frame(if c in f.columns then f.columns else f.columns + [c],
          seq(|f.rows|, i requires 0 <= i < |f.rows| => f.rows[i][c := values[i]]))
  }

  /** Assigning a column keeps the header and the rows in step. */
  lemma WithColumnWellFormed(f: Frame, c: string, values: seq<Cell>)
    requires |values| == |f.rows| && WellFormed(f)
    ensures WellFormed(WithColumn(f, c, values))
  {
    var g := WithColumn(f, c, values);
    forall i | 0 <= i < |g.rows| ensures g.rows[i].Keys == set d | d in g.columns {
      assert g.rows[i] == f.rows[i][c := values[i]];
    }
  }

  /** Assigning a column changes that column to the given cells and no other column. */
  lemma WithColumnColumn(f: Frame, c: string, values: seq<Cell>, d: string)
    requires |values| == |f.rows|
    ensures Column(WithColumn(f, c, values), d) == if d == c then values else Column(f, d)
  {
  }

  /** Assigning a column never repeats a header name. */
  lemma WithColumnNoDuplicates(f: Frame, c: string, values: seq<Cell>)
    requires |values| == |f.rows| && NoDuplicates(f.columns)
    ensures NoDuplicates(WithColumn(f, c, values).columns)
  {
  }

  /** `dropna()`: the non-missing cells, in order. */
  function DropNA(cells: seq<Cell>): (r: seq<Cell>)
    ensures forall k :: 0 <= k < |r| ==> r[k].Some?
  {
    var r := Filter(cells, (c: Cell) => c.Some?);
    assert forall k :: 0 <= k < |r| ==> r[k] in r;
    r
  }

  /** The values of the non-missing cells, in order. */
  function Present(cells: seq<Cell>): seq<Value>
  {
    var d := DropNA(cells);
    seq(|d|, k requires 0 <= k < |d| => d[k].value)
  }

  /** A value is among the present values exactly when some cell holds it. */
  lemma PresentValues(cells: seq<Cell>, v: Value)
    ensures v in Present(cells) <==> exists i :: 0 <= i < |cells| && cells[i] == Some(v)
  {
    var p := (c: Cell) => c.Some?;
    var d := DropNA(cells);
    if v in Present(cells) {
      var k :| 0 <= k < |d| && d[k].value == v;
      assert d[k] in d;
      var i :| 0 <= i < |cells| && cells[i] == d[k];
    }
    if exists i :: 0 <= i < |cells| && cells[i] == Some(v) {
      var i :| 0 <= i < |cells| && cells[i] == Some(v);
      FilterKeeps(cells, p, cells[i]);
      var k :| 0 <= k < |d| && d[k] == cells[i];
      assert Present(cells)[k] == v;
    }
  }

  /** The numbers among the values. */
  function Numbers(vals: seq<Value>): seq<real>
  {
    if |vals| == 0 then []
    else (if vals[0].Num? then [vals[0].x] else []) + Numbers(vals[1..])
  }

  /** `isnull().any()` */
  predicate HasMissing(cells: seq<Cell>)
  {
    exists i :: 0 <= i < |cells| && cells[i].None?
  }

  predicate HasValue(cells: seq<Cell>)
  {
    exists i :: 0 <= i < |cells| && cells[i].Some?
  }

  /** A column pandas stores with a numeric dtype: every non-missing cell is a number (so a
      column with no values at all), as `select_dtypes(include=[np.number])` selects it. */
  predicate IsNumeric(cells: seq<Cell>)
  {
    forall i :: 0 <= i < |cells| && cells[i].Some? ==> cells[i].value.Num?
  }

  /** A column pandas stores with the bool dtype: booleans only, none missing. */
  predicate IsBoolean(cells: seq<Cell>)
  {
    && |cells| > 0
    && forall i :: 0 <= i < |cells| ==> cells[i].Some? && cells[i].value.Flag?
  }

  /** A column pandas stores with the object dtype, as `select_dtypes(include=['object'])`
      selects it: any other column. */
  predicate IsObject(cells: seq<Cell>)
  {
    !IsNumeric(cells) && !IsBoolean(cells)
  }

  /** An object column always holds at least one value. */
  lemma ObjectHasValue(cells: seq<Cell>)
    requires IsObject(cells)
    ensures HasValue(cells)
  {
  }

  lemma {:induction false} PresentNonEmpty(cells: seq<Cell>)
    requires HasValue(cells)
    ensures |Present(cells)| > 0
  {
    var i :| 0 <= i < |cells| && cells[i].Some?;
    FilterKeeps(cells, (c: Cell) => c.Some?, cells[i]);
  }

  /** The numeric columns, in header order. */
  function NumericColumns(f: Frame): seq<string>
  {
    Filter(f.columns, (c: string) => IsNumeric(Column(f, c)))
  }

  /** The object columns, in header order. */
  function ObjectColumns(f: Frame): seq<string>
  {
    Filter(f.columns, (c: string) => IsObject(Column(f, c)))
  }

  /** `fillna(v)`: every missing cell becomes `v`. */
  function Filled(cells: seq<Cell>, v: Cell): (r: seq<Cell>)
    ensures |r| == |cells|
    ensures forall i :: 0 <= i < |cells| ==> r[i] == if cells[i].None? then v else cells[i]
  {
    seq(|cells|, i requires 0 <= i < |cells| => if cells[i].None? then v else cells[i])
  }

  /** `(column > 0).astype(int)` for one cell: 1 or 0, never missing (NaN > 0 is False). */
  function Indicator(cell: Cell): (r: Cell)
    ensures r == Some(Num(1.0)) || r == Some(Num(0.0))
    ensures r == Some(Num(1.0)) <==> cell.Some? && cell.value.Num? && cell.value.x > 0.0
  {
    Some(Num(if cell.Some? && cell.value.Num? && cell.value.x > 0.0 then 1.0 else 0.0))
  }

  function Indicators(cells: seq<Cell>): (r: seq<Cell>)
    ensures |r| == |cells| && forall i :: 0 <= i < |r| ==> r[i] == Indicator(cells[i])
  {
    seq(|cells|, i requires 0 <= i < |cells| => Indicator(cells[i]))
  }

  /** The rows whose cell in column `c` equals `v`: `df[df[c] == v]`. NaN equals nothing, so
      comparing with a missing value selects no row. */
  function RowsWhere(rows: seq<Row>, c: string, v: Cell): seq<Row>
  {
    if v.None? then [] else Filter(rows, (r: Row) => Get(r, c) == v)
  }

  /** The cells of column `c` in the given rows. */
  function CellsOf(rows: seq<Row>, c: string): (col: seq<Cell>)
    ensures |col| == |rows|
    ensures forall i :: 0 <= i < |rows| ==> col[i] == Get(rows[i], c)
  {
    seq(|rows|, i requires 0 <= i < |rows| => Get(rows[i], c))
  }

  /** A DataFrame object, updated in place by column assignment. */
  class DataFrame {
    var columns: seq<string>
    var rows: seq<Row>

    constructor (f: Frame)
      ensures Snapshot() == f
    {
      columns := f.columns;
      rows := f.rows;
    }

    /** The table the object currently holds. */
    function Snapshot(): Frame
      reads this
    {
      Frame(columns, rows)
    }

    /** `df[name] = values` */
    method SetColumn(name: string, values: seq<Cell>)
      requires |values| == |rows|
      modifies this
      ensures Snapshot() == WithColumn(old(Snapshot()), name, values)
    {
      var g := WithColumn(Snapshot(), name, values);
      columns, rows := g.columns, g.rows;
    }
  }
}
