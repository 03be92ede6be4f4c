/** The feature-building preprocessing script: median filling, the zero-guarded loss ratio,
    the previous-claims indicator and integer codes for the object columns. */
module FeaturePreprocess {
  import opened Wrappers
  import opened Values
  import opened Seqs
  import opened Frames
  import opened MissingValues

  // ---------------------------------------------------------------------------------------
  // Derived columns

  /** Both cells are numbers or missing, so pandas can divide one by the other. */
  predicate Numeric2(claims: Cell, premium: Cell)
  {
    (claims.Some? ==> claims.value.Num?) && (premium.Some? ==> premium.value.Num?)
  }

  /** `total_claims / premium.replace(0, 1)` for one row: missing when either operand is
      missing; otherwise the claims over the premium, a zero premium counting as 1, so the
      claims themselves when the premium is 0. */
  function GuardedRatio(claims: Cell, premium: Cell): (r: Cell)
    requires Numeric2(claims, premium)
    ensures r.Some? <==> claims.Some? && premium.Some?
    ensures r.Some? ==> r.value.Num?
    ensures r.Some? && premium.value.x != 0.0 ==> r.value.x * premium.value.x == claims.value.x
    ensures r.Some? && premium.value.x == 0.0 ==> r.value.x == claims.value.x
  {
    if claims.Some? && premium.Some? then
      var divisor := if premium.value.x == 0.0 then 1.0 else premium.value.x;
      Some(Num(claims.value.x / divisor))
    else None
  }

  function GuardedRatios(claims: seq<Cell>, premium: seq<Cell>): (r: seq<Cell>)
    requires |claims| == |premium| && IsNumeric(claims) && IsNumeric(premium)
    ensures |r| == |claims| && forall i :: 0 <= i < |r| ==> r[i] == GuardedRatio(claims[i], premium[i])
  {
    seq(|claims|, i requires 0 <= i < |claims| && IsNumeric(claims) && IsNumeric(premium) =>
      GuardedRatio(claims[i], premium[i]))
  }

  // ---------------------------------------------------------------------------------------
  // Categorical codes

  /** `pd.Categorical(column).categories`: the distinct present values, sorted. */
  function Categories(cells: seq<Cell>): seq<Value>
  {
    SortedLabels(Present(cells))
  }

  /** The categories are strictly sorted and are exactly the values some cell holds. */
  lemma CategoriesCorrect(cells: seq<Cell>)
    ensures StrictlySorted(Categories(cells)) && NoDuplicates(Categories(cells))
    ensures forall v :: v in Categories(cells) <==> exists i :: 0 <= i < |cells| && cells[i] == Some(v)
  {
    SortedLabelsCorrect(Present(cells));
    forall v ensures v in Categories(cells) <==> exists i :: 0 <= i < |cells| && cells[i] == Some(v) {
      PresentValues(cells, v);
    }
  }

  /** The code of one cell: its category's position, or -1 for a missing cell. */
  function Code(cats: seq<Value>, cell: Cell): real
  {
    if cell.Some? && cell.value in cats then IndexOf(cats, cell.value) as real else -1.0
  }

  /** `pd.Categorical(column).codes` */
  function Codes(cells: seq<Cell>): (r: seq<Cell>)
    ensures |r| == |cells|
    ensures forall i :: 0 <= i < |cells| ==> r[i] == Some(Num(Code(Categories(cells), cells[i])))
  {
    var cats := Categories(cells);
    seq(|cells|, i requires 0 <= i < |cells| => Some(Num(Code(cats, cells[i]))))
  }

  /** A cell's code is -1 exactly when it is missing; a present cell's code is the position
      of its value among the categories. */
  lemma CodeOfCell(cells: seq<Cell>, i: nat)
    requires i < |cells|
    ensures var code := Code(Categories(cells), cells[i]);
            && (code == -1.0 <==> cells[i].None?)
            && (cells[i].Some? ==>
                  exists k: nat :: k < |Categories(cells)| && code == k as real &&
                                   Categories(cells)[k] == cells[i].value)
  {
    CategoriesCorrect(cells);
    if cells[i].Some? {
      assert cells[i].value in Categories(cells);
      var k := IndexOf(Categories(cells), cells[i].value);
      assert Code(Categories(cells), cells[i]) == k as real;
    }
  }

  /** Two rows get the same code exactly when they hold the same value (or both none). */
  lemma CodesEqual(cells: seq<Cell>, i: nat, j: nat)
    requires i < |cells| && j < |cells|
    ensures Codes(cells)[i] == Codes(cells)[j] <==> cells[i] == cells[j]
  {
    CodeOfCell(cells, i);
    CodeOfCell(cells, j);
    CategoriesCorrect(cells);
    var cats := Categories(cells);
    if cells[i].Some? && cells[j].Some? && cells[i] != cells[j] {
      var a := IndexOf(cats, cells[i].value);
      var b := IndexOf(cats, cells[j].value);
      assert a != b;
    }
  }

  /** Codes follow the order of the values they stand for. */
  lemma CodesOrdered(cells: seq<Cell>, i: nat, j: nat)
    requires i < |cells| && j < |cells| && cells[i].Some? && cells[j].Some?
    ensures Code(Categories(cells), cells[i]) < Code(Categories(cells), cells[j]) <==>
            Less(cells[i].value, cells[j].value)
  {
    CategoriesCorrect(cells);
    var cats := Categories(cells);
    var u, v := cells[i].value, cells[j].value;
    assert u in cats && v in cats;
    var a := IndexOf(cats, u);
    var b := IndexOf(cats, v);
    if a < b {
      assert Less(cats[a], cats[b]);
    } else if a == b {
      LessIrreflexive(u);
    } else {
      assert Less(v, u);
      if Less(u, v) {
        LessAsymmetric(u, v);
      }
    }
  }

  /** The name of the code column of `c`. */
  function CodeName(c: string): string
  {
    c + "_code"
  }

  /** Code column names of distinct columns are distinct, and no code column is named
      like a derived column. */
  lemma CodeNames(c: string, d: string)
    ensures CodeName(c) == CodeName(d) <==> c == d
    ensures CodeName(c) != "loss_ratio" && CodeName(c) != "has_previous_claims"
  {
    if CodeName(c) == CodeName(d) {
      assert c == CodeName(c)[..|c|];
      assert d == CodeName(d)[..|d|];
    }
    assert CodeName(c)[|CodeName(c)| - 1] == 'e';
  }

  /** The encoding loop over `cols`, in order: `df[c + "_code"] = codes of df[c]`. */
  function AddCodes(f: Frame, cols: seq<string>): (g: Frame)
    ensures |g.rows| == |f.rows|
    ensures forall c :: c in f.columns ==> c in g.columns
  {
    if |cols| == 0 then f
    else
      var g := AddCodes(f, cols[..|cols| - 1]);
      var c := cols[|cols| - 1];
      WithColumn(g, CodeName(c), Codes(Column(g, c)))
  }

  /** No code column that the loop over `cols` writes is a column of `f` or another listed
      column's source. */
  predicate CodesFresh(f: Frame, cols: seq<string>)
  {
    && (forall c, d :: c in cols && d in f.columns ==> CodeName(c) != d)
    && (forall c, d :: c in cols && d in cols ==> CodeName(c) != d)
  }

  /** When the code names are fresh and the listed columns distinct, the encoding loop leaves
      every existing column as it was and gives each listed column a code column holding the
      codes of that column. */
  lemma AddCodesCells(f: Frame, cols: seq<string>)
    requires NoDuplicates(cols) && CodesFresh(f, cols)
    ensures forall i, d :: 0 <= i < |f.rows| && d in f.columns ==>
              Get(AddCodes(f, cols).rows[i], d) == Get(f.rows[i], d)
    ensures forall c :: c in cols ==>
              CodeName(c) in AddCodes(f, cols).columns &&
              Column(AddCodes(f, cols), CodeName(c)) == Codes(Column(f, c))
  {
    forall i, d | 0 <= i < |f.rows| && d in f.columns
      ensures Get(AddCodes(f, cols).rows[i], d) == Get(f.rows[i], d)
    {
      AddCodesUntouched(f, cols, d, i);
    }
    AddCodesColumns(f, cols);
  }

  lemma {:induction false} AddCodesColumns(f: Frame, cols: seq<string>)
    requires NoDuplicates(cols) && CodesFresh(f, cols)
    ensures forall c :: c in cols ==>
              CodeName(c) in AddCodes(f, cols).columns &&
              Column(AddCodes(f, cols), CodeName(c)) == Codes(Column(f, c))
  {
    if |cols| > 0 {
      var p := cols[..|cols| - 1];
      var c := cols[|cols| - 1];
      CodesFreshPrefix(f, cols);
      AddCodesColumns(f, p);
      var g := AddCodes(f, p);
      AddCodesSource(f, p, c);
      var codes := Codes(Column(g, c));
      assert AddCodes(f, cols) == WithColumn(g, CodeName(c), codes);
      WithColumnColumn(g, CodeName(c), codes, CodeName(c));
      forall e | e in p
        ensures CodeName(e) in AddCodes(f, cols).columns
        ensures Column(AddCodes(f, cols), CodeName(e)) == Codes(Column(f, e))
      {
        CodeNames(e, c);
        WithColumnColumn(g, CodeName(c), codes, CodeName(e));
      }
    }
  }

  /** The loop's prefix meets the same conditions, and its code names never overwrite the
      last listed column. */
  lemma CodesFreshPrefix(f: Frame, cols: seq<string>)
    requires |cols| > 0 && NoDuplicates(cols) && CodesFresh(f, cols)
    ensures NoDuplicates(cols[..|cols| - 1]) && CodesFresh(f, cols[..|cols| - 1])
    ensures forall x :: x in cols[..|cols| - 1] ==> CodeName(x) != cols[|cols| - 1] && x != cols[|cols| - 1]
  {
    var p := cols[..|cols| - 1];
    assert forall x :: x in p ==> x in cols;
    assert cols[|cols| - 1] in cols;
  }

  /** A column that no code name of `cols` overwrites reaches the end of the loop intact. */
  lemma AddCodesSource(f: Frame, cols: seq<string>, c: string)
    requires forall x :: x in cols ==> CodeName(x) != c
    ensures Column(AddCodes(f, cols), c) == Column(f, c)
  {
    forall i | 0 <= i < |f.rows| ensures Get(AddCodes(f, cols).rows[i], c) == Get(f.rows[i], c) {
      AddCodesUntouched(f, cols, c, i);
    }
  }

  /** A name that is neither a column of `f` nor a code name of `cols` stays missing. */
  lemma {:induction false} AddCodesUntouched(f: Frame, cols: seq<string>, d: string, i: nat)
    requires i < |f.rows|
    requires forall c :: c in cols ==> CodeName(c) != d
    ensures Get(AddCodes(f, cols).rows[i], d) == Get(f.rows[i], d)
  {
    if |cols| > 0 {
      AddCodesUntouched(f, cols[..|cols| - 1], d, i);
    }
  }

  // ---------------------------------------------------------------------------------------
  // clean_data

  /** What clean_data demands of its input: the operands of the loss ratio and of the
      indicator are numeric columns (pandas raises a TypeError on text there). */
  predicate Featurable(f: Frame)
  {
    && ("premium" in f.columns && "total_claims" in f.columns ==>
          IsNumeric(Column(f, "premium")) && IsNumeric(Column(f, "total_claims")))
    && ("previous_claims" in f.columns ==> IsNumeric(Column(f, "previous_claims")))
  }

  /** The numeric loop over the numeric columns, as clean_data runs it first. */
  function MedianFilled(f: Frame): (g: Frame)
    ensures g.columns == f.columns && |g.rows| == |f.rows|
  {
    FillMedians(f, NumericColumns(f))
  }

  /** Median filling keeps the input acceptable to the rest of clean_data. */
  lemma MedianFilledFeaturable(f: Frame)
    requires Featurable(f)
    ensures Featurable(MedianFilled(f))
  {
    if "premium" in f.columns && "total_claims" in f.columns {
      FillMediansKeepsNumeric(f, NumericColumns(f), "premium");
      FillMediansKeepsNumeric(f, NumericColumns(f), "total_claims");
    }
    if "previous_claims" in f.columns {
      FillMediansKeepsNumeric(f, NumericColumns(f), "previous_claims");
    }
  }

  /** The table after the loss ratio and the indicator are added. */
  function Derived(f: Frame): Frame
    requires Featurable(f)
  {
    var g := MedianFilled(f);
    MedianFilledFeaturable(f);
    var h := if "premium" in g.columns && "total_claims" in g.columns then
               WithColumn(g, "loss_ratio", GuardedRatios(Column(g, "total_claims"), Column(g, "premium")))
             else g;
    if "previous_claims" in h.columns then
      WithColumn(h, "has_previous_claims", Indicators(Column(h, "previous_claims")))
    else h
  }

  /** The table clean_data leaves behind. */
  function FeatureFrame(f: Frame): Frame
    requires Featurable(f)
  {
    var k := Derived(f);
    AddCodes(k, ObjectColumns(k))
  }

  /** The encoding loop, in place. */
  method AddCodesInPlace(df: DataFrame, cols: seq<string>)
    modifies df
    ensures df.Snapshot() == AddCodes(old(df.Snapshot()), cols)
  {
    ghost var f := df.Snapshot();
    var i := 0;
    while i < |cols|
      invariant 0 <= i <= |cols|
      invariant df.Snapshot() == AddCodes(f, cols[..i])
    {
      var c := cols[i];
      df.SetColumn(CodeName(c), Codes(Column(df.Snapshot(), c)));
      assert cols[..i + 1][..i] == cols[..i];
      i := i + 1;
    }
    assert cols[..i] == cols;
  }

  /** clean_data, updating the DataFrame in place. */
  method CleanData(df: DataFrame)
    requires Featurable(df.Snapshot())
    modifies df
    ensures df.Snapshot() == FeatureFrame(old(df.Snapshot()))
  {
    ghost var f := df.Snapshot();
    FillMediansInPlace(df, NumericColumns(df.Snapshot()));
    assert df.Snapshot() == MedianFilled(f);
    MedianFilledFeaturable(f);
    if "premium" in df.columns && "total_claims" in df.columns {
      df.SetColumn("loss_ratio", GuardedRatios(Column(df.Snapshot(), "total_claims"), Column(df.Snapshot(), "premium")));
    }
    if "previous_claims" in df.columns {
      df.SetColumn("has_previous_claims", Indicators(Column(df.Snapshot(), "previous_claims")));
    }
    assert df.Snapshot() == Derived(f);
    AddCodesInPlace(df, ObjectColumns(df.Snapshot()));
  }

  /** A cell after the numeric loop: a missing cell of a numeric column holds the column's
      median, every other cell is as it was. */
  function FilledCell(f: Frame, i: nat, d: string): Cell
    requires i < |f.rows|
  {
    var col := Column(f, d);
    if d in f.columns && IsNumeric(col) && Get(f.rows[i], d).None? then MedianCell(col)
    else Get(f.rows[i], d)
  }

  /** The numeric loop fills exactly the missing cells of the numeric columns, each with its
      column's median, and leaves every present cell and every other column alone. */
  lemma MedianFilledCells(f: Frame)
    requires NoDuplicates(f.columns)
    ensures forall i, d :: 0 <= i < |f.rows| ==> Get(MedianFilled(f).rows[i], d) == FilledCell(f, i, d)
  {
    var p := (c: string) => IsNumeric(Column(f, c));
    var nums := NumericColumns(f);
    FilterNoDuplicates(f.columns, p);
    FillMediansCells(f, nums);
    forall d | d in f.columns && IsNumeric(Column(f, d)) ensures d in nums {
      FilterKeeps(f.columns, p, d);
    }
  }

  /** Row by row after the derived columns: loss_ratio is the guarded ratio of the filled
      claims and premium when both columns exist, has_previous_claims the indicator of the
      filled previous claims when that column exists, and every other cell the filled one. */
  lemma DerivedCells(f: Frame, i: nat, d: string)
    requires Featurable(f) && Featurable(MedianFilled(f)) && i < |f.rows|
    ensures |Derived(f).rows| == |f.rows|
    ensures var g := MedianFilled(f);
            Get(Derived(f).rows[i], d) ==
              if d == "has_previous_claims" && "previous_claims" in f.columns then
                Indicator(Get(g.rows[i], "previous_claims"))
              else if d == "loss_ratio" && "premium" in f.columns && "total_claims" in f.columns then
                GuardedRatio(Get(g.rows[i], "total_claims"), Get(g.rows[i], "premium"))
              else Get(g.rows[i], d)
  {
  }

  /** The header after the derived columns: the original names, then whichever derived
      names are new, with no repeats; the derived columns are numeric, so every object
      column is an original one. */
  lemma DerivedHeader(f: Frame)
    requires Featurable(f) && NoDuplicates(f.columns)
    ensures NoDuplicates(Derived(f).columns)
    ensures forall d :: d in f.columns ==> d in Derived(f).columns
    ensures forall d :: d in Derived(f).columns ==> d in f.columns || d == "loss_ratio" || d == "has_previous_claims"
    ensures forall c :: c in ObjectColumns(Derived(f)) ==> c in f.columns
  {
    MedianFilledFeaturable(f);
    var g := MedianFilled(f);
    var k := Derived(f);
    var h := if "premium" in g.columns && "total_claims" in g.columns then
               WithColumn(g, "loss_ratio", GuardedRatios(Column(g, "total_claims"), Column(g, "premium")))
             else g;
    if "premium" in g.columns && "total_claims" in g.columns {
      WithColumnNoDuplicates(g, "loss_ratio", GuardedRatios(Column(g, "total_claims"), Column(g, "premium")));
    }
    if "previous_claims" in h.columns {
      WithColumnNoDuplicates(h, "has_previous_claims", Indicators(Column(h, "previous_claims")));
    }
    forall c | c in ObjectColumns(k) ensures c in f.columns {
      if c !in f.columns {
        FilterKeeps(k.columns, (c: string) => IsObject(Column(k, c)), c);
        DerivedColumnNumeric(f, c);
      }
    }
  }

  /** A column clean_data adds is the loss ratio, added when both its operands exist, or the
      indicator, added when previous_claims exists. */
  lemma DerivedNames(f: Frame, c: string)
    requires Featurable(f) && c !in f.columns && c in Derived(f).columns
    ensures || (c == "loss_ratio" && "premium" in f.columns && "total_claims" in f.columns)
            || (c == "has_previous_claims" && "previous_claims" in f.columns)
  {
  }

  /** A column clean_data adds holds numbers only. */
  lemma DerivedColumnNumeric(f: Frame, c: string)
    requires Featurable(f) && c !in f.columns && c in Derived(f).columns
    ensures IsNumeric(Column(Derived(f), c))
  {
    MedianFilledFeaturable(f);
    DerivedNames(f, c);
    var col := Column(Derived(f), c);
    forall i | 0 <= i < |col| && col[i].Some? ensures col[i].value.Num? {
      DerivedCells(f, i, c);
    }
  }

  /** No input column is named like the code column of another input column, so the encoding
      loop never overwrites an input column. */
  predicate CodeNamesFresh(f: Frame)
  {
    forall c, d :: c in f.columns && d in f.columns ==> CodeName(c) != d
  }

  /** clean_data end to end, when no input column is named like another's code column: one
      row per input row; every column of the derived table (the median-filled input columns,
      loss_ratio and has_previous_claims, as DerivedCells states them) is kept; and each of
      its object columns gains a `_code` column holding that column's category codes. */
  lemma FeatureFrameCells(f: Frame)
    requires Featurable(f) && NoDuplicates(f.columns) && CodeNamesFresh(f)
    ensures |FeatureFrame(f).rows| == |f.rows|
    ensures forall i, d :: 0 <= i < |f.rows| && d in Derived(f).columns ==>
              Get(FeatureFrame(f).rows[i], d) == Get(Derived(f).rows[i], d)
    ensures forall c :: c in ObjectColumns(Derived(f)) ==>
              CodeName(c) in FeatureFrame(f).columns &&
              Column(FeatureFrame(f), CodeName(c)) == Codes(Column(Derived(f), c))
  {
    var k := Derived(f);
    var cols := ObjectColumns(k);
    DerivedHeader(f);
    MedianFilledFeaturable(f);
    FilterNoDuplicates(k.columns, (c: string) => IsObject(Column(k, c)));
    forall c | c in cols ensures CodeName(c) != "loss_ratio" && CodeName(c) != "has_previous_claims" {
      CodeNames(c, c);
    }
    assert CodesFresh(k, cols);
    AddCodesCells(k, cols);
  }
}
