/** The missing-value filling both preprocessing scripts perform: each numeric column that has
    a missing cell is filled with its median, each object column with its mode. */
module MissingValues {
  import opened Wrappers
  import opened Values
  import opened Seqs
  import opened Aggregates
  import opened Frames

  /** `df[col].median()` as a cell; missing (NaN) when the column holds no number. */
  function MedianCell(cells: seq<Cell>): (m: Cell)
    ensures m.Some? ==> m.value.Num?
  {
    match Median(Numbers(Present(cells)))
    case None => None
    case Some(x) => Some(Num(x))
  }

  /** `df[col].mode()[0]` as a cell. */
  function ModeCell(cells: seq<Cell>): Cell
    requires HasValue(cells)
  {
    PresentNonEmpty(cells);
    Some(Mode(Present(cells)))
  }

  /** One pass of the numeric loop:
      `if df[col].isnull().any(): df[col] = df[col].fillna(df[col].median())`. */
  function FillMedian(f: Frame, c: string): Frame
  {
    var col := Column(f, c);
    if HasMissing(col) then WithColumn(f, c, Filled(col, MedianCell(col))) else f
  }

  /** One pass of the object loop:
      `if df[col].isnull().any(): df[col] = df[col].fillna(df[col].mode()[0])`. */
  function FillMode(f: Frame, c: string): Frame
    requires HasValue(Column(f, c))
  {
    var col := Column(f, c);
    if HasMissing(col) then WithColumn(f, c, Filled(col, ModeCell(col))) else f
  }

  /** The numeric loop over `cols`, in order. */
  function FillMedians(f: Frame, cols: seq<string>): (g: Frame)
    requires forall c :: c in cols ==> c in f.columns
    ensures g.columns == f.columns && |g.rows| == |f.rows|
  {
    if |cols| == 0 then f else FillMedian(FillMedians(f, cols[..|cols| - 1]), cols[|cols| - 1])
  }

  /** The object loop over `cols`, in order. Filling never removes a value, so each column
      still holds one when its turn comes. */
  function FillModes(f: Frame, cols: seq<string>): (g: Frame)
    requires forall c :: c in cols ==> c in f.columns && HasValue(Column(f, c))
    ensures g.columns == f.columns && |g.rows| == |f.rows|
    ensures forall i, d :: 0 <= i < |f.rows| && Get(f.rows[i], d).Some? ==>
              Get(g.rows[i], d) == Get(f.rows[i], d)
  {
    if |cols| == 0 then f
    else
      var c := cols[|cols| - 1];
      var g := FillModes(f, cols[..|cols| - 1]);
      assert HasValue(Column(g, c)) by {
        assert c in cols;
        var col := Column(f, c);
        assert HasValue(col);
        var i :| 0 <= i < |col| && col[i].Some?;
        assert Column(g, c)[i] == Column(f, c)[i];
      }
      FillMode(g, c)
  }

  /** Median filling keeps a numeric column numeric. */
  lemma {:induction false} FillMediansKeepsNumeric(f: Frame, cols: seq<string>, c: string)
    requires forall d :: d in cols ==> d in f.columns
    requires IsNumeric(Column(f, c))
    ensures IsNumeric(Column(FillMedians(f, cols), c))
  {
    if |cols| > 0 {
      FillMediansKeepsNumeric(f, cols[..|cols| - 1], c);
    }
  }

  /** After the numeric loop over distinct columns, a missing cell of a listed column holds
      that column's median (taken before filling), and every other cell is as it was. */
  lemma {:induction false} FillMediansCells(f: Frame, cols: seq<string>)
    requires forall c :: c in cols ==> c in f.columns
    requires NoDuplicates(cols)
    ensures forall i, d :: 0 <= i < |f.rows| ==>
              Get(FillMedians(f, cols).rows[i], d) ==
                if d in cols && Get(f.rows[i], d).None? then MedianCell(Column(f, d))
                else Get(f.rows[i], d)
  {
    if |cols| > 0 {
      var p := cols[..|cols| - 1];
      var c := cols[|cols| - 1];
      FillMediansCells(f, p);
      var g := FillMedians(f, p);
      assert c !in p;
      assert Column(g, c) == Column(f, c);
      assert forall d :: d in cols <==> d in p || d == c;
    }
  }

  /** After the object loop over distinct columns, a missing cell of a listed column holds
      that column's mode (taken before filling), and every other cell is as it was. */
  lemma {:induction false} FillModesCells(f: Frame, cols: seq<string>)
    requires forall c :: c in cols ==> c in f.columns && HasValue(Column(f, c))
    requires NoDuplicates(cols)
    ensures forall i, d :: 0 <= i < |f.rows| ==>
              Get(FillModes(f, cols).rows[i], d) ==
                if d in cols && Get(f.rows[i], d).None? then ModeCell(Column(f, d))
                else Get(f.rows[i], d)
  {
    if |cols| > 0 {
      var p := cols[..|cols| - 1];
      var c := cols[|cols| - 1];
      FillModesCells(f, p);
      var g := FillModes(f, p);
      assert c !in p;
      assert Column(g, c) == Column(f, c);
      assert forall d :: d in cols <==> d in p || d == c;
    }
  }

  /** The numeric loop, in place: each listed column that has a missing cell is assigned its
      median-filled copy. */
  method FillMediansInPlace(df: DataFrame, cols: seq<string>)
    requires forall c :: c in cols ==> c in df.columns
    modifies df
    ensures df.Snapshot() == FillMedians(old(df.Snapshot()), cols)
  {
    ghost var f := df.Snapshot();
    var i := 0;
    while i < |cols|
      invariant 0 <= i <= |cols|
      invariant df.Snapshot() == FillMedians(f, cols[..i])
    {
      var c := cols[i];
      var col := Column(df.Snapshot(), c);
      if HasMissing(col) {
        df.SetColumn(c, Filled(col, MedianCell(col)));
      }
      assert cols[..i + 1][..i] == cols[..i];
      i := i + 1;
    }
    assert cols[..i] == cols;
  }

  /** The object loop, in place: each listed column that has a missing cell is assigned its
      mode-filled copy. */
  method FillModesInPlace(df: DataFrame, cols: seq<string>)
    requires forall c :: c in cols ==> c in df.columns && HasValue(Column(df.Snapshot(), c))
    modifies df
    ensures df.Snapshot() == FillModes(old(df.Snapshot()), cols)
  {
    ghost var f := df.Snapshot();
    var i := 0;
    while i < |cols|
      invariant 0 <= i <= |cols|
      invariant df.Snapshot() == FillModes(f, cols[..i])
    {
      var c := cols[i];
      var col := Column(df.Snapshot(), c);
      assert HasValue(col) by {
        var fc := Column(f, c);
        assert c in cols;
        var k :| 0 <= k < |fc| && fc[k].Some?;
        assert col[k] == fc[k];
      }
      if HasMissing(col) {
        df.SetColumn(c, Filled(col, ModeCell(col)));
      }
      assert cols[..i + 1][..i] == cols[..i];
      i := i + 1;
    }
    assert cols[..i] == cols;
  }
}
