/** The notebook preprocessing pipeline: business-metric columns, de-duplication and
    missing-value filling, and the metrics report. */
module MetricsPreprocess {
  import opened Wrappers
  import opened Values
  import opened Seqs
  import opened Aggregates
  import opened Frames
  import opened MissingValues

  // ---------------------------------------------------------------------------------------
  // calculate_business_metrics

  /** pandas can divide this claim by this premium without raising and without producing an
      infinity: both cells are numbers or missing, and the premium is non-zero whenever both
      are present. */
  predicate RatioDefined(claims: Cell, premium: Cell)
  {
    && (claims.Some? ==> claims.value.Num?)
    && (premium.Some? ==> premium.value.Num?)
    && (claims.Some? && premium.Some? ==> premium.value.x != 0.0)
  }

  /** `TotalClaims / TotalPremium` for one row: missing when either operand is missing;
      otherwise the number that, multiplied by the premium, gives back the claims. */
  function Ratio(claims: Cell, premium: Cell): (r: Cell)
    requires RatioDefined(claims, premium)
    ensures r.Some? <==> claims.Some? && premium.Some?
    ensures r.Some? ==> r.value.Num? && r.value.x * premium.value.x == claims.value.x
  {
    if claims.Some? && premium.Some? then Some(Num(claims.value.x / premium.value.x)) else None
  }

  /** `current_year - Year` for one row: missing when the year is missing; otherwise the age
      that, added to the year, gives the current year. */
  function Age(year: Cell, currentYear: int): (r: Cell)
    requires year.Some? ==> year.value.Num?
    ensures r.Some? <==> year.Some?
    ensures r.Some? ==> r.value.Num? && r.value.x + year.value.x == currentYear as real
  {
    if year.Some? then Some(Num(currentYear as real - year.value.x)) else None
  }

  function LossRatios(claims: seq<Cell>, premium: seq<Cell>): (r: seq<Cell>)
    requires |claims| == |premium|
    requires forall i :: 0 <= i < |claims| ==> RatioDefined(claims[i], premium[i])
    ensures |r| == |claims| && forall i :: 0 <= i < |r| ==> r[i] == Ratio(claims[i], premium[i])
  {
    seq(|claims|, i requires 0 <= i < |claims| && RatioDefined(claims[i], premium[i]) => Ratio(claims[i], premium[i]))
  }

  function VehicleAges(years: seq<Cell>, currentYear: int): (r: seq<Cell>)
    requires IsNumeric(years)
    ensures |r| == |years| && forall i :: 0 <= i < |r| ==> r[i] == Age(years[i], currentYear)
  {
    seq(|years|, i requires 0 <= i < |years| && IsNumeric(years) => Age(years[i], currentYear))
  }

  /** The inputs on which calculate_business_metrics neither raises nor divides by zero. */
  predicate Derivable(f: Frame)
  {
    && ("TotalClaims" in f.columns && "TotalPremium" in f.columns ==>
          forall i :: 0 <= i < |f.rows| ==>
            RatioDefined(Get(f.rows[i], "TotalClaims"), Get(f.rows[i], "TotalPremium")))
    && ("VehicleAge" !in f.columns && "Year" in f.columns ==> IsNumeric(Column(f, "Year")))
  }

  /** The LossRatio and HasClaim step, taken only when both source columns exist. */
  function WithClaimColumns(f: Frame): (g: Frame)
    requires Derivable(f)
  {
    if "TotalClaims" in f.columns && "TotalPremium" in f.columns then
      var h := WithColumn(f, "LossRatio", LossRatios(Column(f, "TotalClaims"), Column(f, "TotalPremium")));
      WithColumn(h, "HasClaim", Indicators(Column(h, "TotalClaims")))
    else f
  }

  /** The table calculate_business_metrics leaves behind, the clock's year given. */
  function BusinessMetrics(f: Frame, currentYear: int): Frame
    requires Derivable(f)
  {
    var g := WithClaimColumns(f);
    assert Column(g, "Year") == Column(f, "Year");
    if "VehicleAge" !in g.columns && "Year" in g.columns then
      WithColumn(g, "VehicleAge", VehicleAges(Column(g, "Year"), currentYear))
    else g
  }

  /** calculate_business_metrics, updating the DataFrame in place. */
  method CalculateBusinessMetrics(df: DataFrame, currentYear: int)
    requires Derivable(df.Snapshot())
    modifies df
    ensures df.Snapshot() == BusinessMetrics(old(df.Snapshot()), currentYear)
  {
    ghost var f := df.Snapshot();
    if "TotalClaims" in df.columns && "TotalPremium" in df.columns {
      var claims := Column(df.Snapshot(), "TotalClaims");
      df.SetColumn("LossRatio", LossRatios(claims, Column(df.Snapshot(), "TotalPremium")));
      df.SetColumn("HasClaim", Indicators(Column(df.Snapshot(), "TotalClaims")));
    }
    assert df.Snapshot() == WithClaimColumns(f);
    assert Column(df.Snapshot(), "Year") == Column(f, "Year");
    if "VehicleAge" !in df.columns && "Year" in df.columns {
      df.SetColumn("VehicleAge", VehicleAges(Column(df.Snapshot(), "Year"), currentYear));
    }
  }

  /** Row by row: LossRatio and HasClaim are derived exactly when both TotalClaims and
      TotalPremium exist, VehicleAge exactly when it is absent and Year exists; every other
      cell, and every existing VehicleAge, is left as it was. */
  lemma BusinessMetricsCells(f: Frame, currentYear: int, i: nat, d: string)
    requires Derivable(f) && i < |f.rows|
    ensures |BusinessMetrics(f, currentYear).rows| == |f.rows|
    ensures var g := BusinessMetrics(f, currentYear);
            var both := "TotalClaims" in f.columns && "TotalPremium" in f.columns;
            var claims := Get(f.rows[i], "TotalClaims");
            Get(g.rows[i], d) ==
              if d == "LossRatio" && both then Ratio(claims, Get(f.rows[i], "TotalPremium"))
              else if d == "HasClaim" && both then Indicator(claims)
              else if d == "VehicleAge" && "VehicleAge" !in f.columns && "Year" in f.columns then
                Age(Get(f.rows[i], "Year"), currentYear)
              else Get(f.rows[i], d)
  {
    var g := WithClaimColumns(f);
    assert "VehicleAge" in g.columns <==> "VehicleAge" in f.columns;
    assert "Year" in g.columns <==> "Year" in f.columns;
    assert Column(g, "Year") == Column(f, "Year");
  }

  // ---------------------------------------------------------------------------------------
  // clean_data

  /** `drop_duplicates()`: the first occurrence of every distinct row, in order. */
  function DropDuplicates(f: Frame): Frame
  {
    Frame(f.columns, Distinct(f.rows))
  }

  /** `initial_rows - len(df)` after dropping duplicates. */
  function DuplicatesRemoved(f: Frame): (n: int)
    ensures n >= 0
    ensures n == 0 <==> NoDuplicates(f.rows)
  {
    DistinctSameElements(f.rows);
    DistinctShrinksIffDuplicates(f.rows);
    |f.rows| - |DropDuplicates(f).rows|
  }

  /** De-duplication leaves no two equal rows, keeps every row at its first occurrence, in
      the original order, and keeps the header. */
  lemma DropDuplicatesCorrect(f: Frame)
    ensures DropDuplicates(f).columns == f.columns
    ensures NoDuplicates(DropDuplicates(f).rows)
    ensures forall r :: r in DropDuplicates(f).rows <==> r in f.rows
    ensures forall j, k :: 0 <= j < k < |DropDuplicates(f).rows| ==>
              FirstIndex(f.rows, DropDuplicates(f).rows[j]) < FirstIndex(f.rows, DropDuplicates(f).rows[k])
  {
    var d := DropDuplicates(f).rows;
    assert d == Distinct(f.rows);
    DistinctSameElements(f.rows);
    DistinctNoDuplicates(f.rows);
    DistinctFirstAppearance(f.rows);
  }

  /** `df.isnull().sum().sum() > 0` */
  predicate AnyMissing(f: Frame)
  {
    exists i, c :: 0 <= i < |f.rows| && c in f.columns && Get(f.rows[i], c).None?
  }

  /** The table clean_data returns. */
  function CleanedFrame(f: Frame): Frame
  {
    var d := DropDuplicates(f);
    if !AnyMissing(d) then d
    else
      var g := FillMedians(d, NumericColumns(d));
      FillModes(g, ObjectColumns(g))
  }

  /** clean_data: drops duplicate rows into a new DataFrame, then, when any cell is missing,
      fills the numeric columns with their medians and the object columns with their modes. */
  method CleanData(df: DataFrame) returns (out: DataFrame)
    ensures fresh(out)
    ensures out.Snapshot() == CleanedFrame(df.Snapshot())
  {
    var initialRows := |df.rows|;
    out := new DataFrame(DropDuplicates(df.Snapshot()));
    var duplicatesRemoved := initialRows - |out.rows|;
    assert duplicatesRemoved == DuplicatesRemoved(df.Snapshot());
    var d := out.Snapshot();
    if AnyMissing(d) {
      FillMediansInPlace(out, NumericColumns(d));
      var g := out.Snapshot();
      FillModesInPlace(out, ObjectColumns(g));
    }
  }

  /** Which kind of fill a cell of the de-duplicated table receives. */
  function CleanedCell(d: Frame, i: nat, c: string): Cell
    requires i < |d.rows|
  {
    var col := Column(d, c);
    if c in d.columns && Get(d.rows[i], c).None? && IsNumeric(col) then MedianCell(col)
    else if c in d.columns && Get(d.rows[i], c).None? && IsObject(col) then
      ObjectHasValue(col);
      ModeCell(col)
    else Get(d.rows[i], c)
  }

  /** clean_data cell by cell: the header is kept, one row per distinct row of the input; a
      missing cell of a numeric column becomes that column's median after de-duplication, a
      missing cell of an object column becomes its mode, and every other cell is the
      de-duplicated row's own. */
  lemma CleanedFrameCells(f: Frame)
    requires NoDuplicates(f.columns)
    ensures CleanedFrame(f).columns == f.columns
    ensures |CleanedFrame(f).rows| == |DropDuplicates(f).rows|
    ensures forall i, c :: 0 <= i < |DropDuplicates(f).rows| ==>
              Get(CleanedFrame(f).rows[i], c) == CleanedCell(DropDuplicates(f), i, c)
  {
    var d := DropDuplicates(f);
    if AnyMissing(d) {
      forall i, c | 0 <= i < |d.rows|
        ensures Get(CleanedFrame(f).rows[i], c) == CleanedCell(d, i, c)
      {
        FilledCellAt(f, i, c);
      }
    }
  }

  /** The numeric stage of clean_data on one cell: a missing cell of a numeric column holds
      the median, every other cell is as it was. */
  lemma MedianStageCell(d: Frame, i: nat, c: string)
    requires NoDuplicates(d.columns) && i < |d.rows|
    ensures Get(FillMedians(d, NumericColumns(d)).rows[i], c) ==
              if c in d.columns && IsNumeric(Column(d, c)) && Get(d.rows[i], c).None?
              then MedianCell(Column(d, c)) else Get(d.rows[i], c)
  {
    var nums := NumericColumns(d);
    FilterNoDuplicates(d.columns, (c: string) => IsNumeric(Column(d, c)));
    FillMediansCells(d, nums);
    if c in d.columns && IsNumeric(Column(d, c)) {
      FilterKeeps(d.columns, (c: string) => IsNumeric(Column(d, c)), c);
    }
  }

  /** The numeric stage leaves a column that is not numeric as it was. */
  lemma MedianStageOther(d: Frame, c: string)
    requires NoDuplicates(d.columns) && !(c in d.columns && IsNumeric(Column(d, c)))
    ensures Column(FillMedians(d, NumericColumns(d)), c) == Column(d, c)
  {
    forall i | 0 <= i < |d.rows|
      ensures Get(FillMedians(d, NumericColumns(d)).rows[i], c) == Get(d.rows[i], c)
    {
      MedianStageCell(d, i, c);
    }
  }

  /** The object stage of clean_data on one cell: a missing cell of an object column holds
      the mode, every other cell is as it was. */
  lemma ModeStageCell(g: Frame, i: nat, c: string)
    requires NoDuplicates(g.columns) && i < |g.rows|
    ensures Get(FillModes(g, ObjectColumns(g)).rows[i], c) ==
              if c in g.columns && IsObject(Column(g, c)) && Get(g.rows[i], c).None?
              then (ObjectHasValue(Column(g, c)); ModeCell(Column(g, c))) else Get(g.rows[i], c)
  {
    var objs := ObjectColumns(g);
    FilterNoDuplicates(g.columns, (c: string) => IsObject(Column(g, c)));
    FillModesCells(g, objs);
    if c in g.columns && IsObject(Column(g, c)) {
      FilterKeeps(g.columns, (c: string) => IsObject(Column(g, c)), c);
    }
  }

  /** One cell of a table that has a missing cell after de-duplication, so that both fill
      loops run. */
  lemma FilledCellAt(f: Frame, i: nat, c: string)
    requires NoDuplicates(f.columns) && AnyMissing(DropDuplicates(f)) && i < |DropDuplicates(f).rows|
    ensures Get(CleanedFrame(f).rows[i], c) == CleanedCell(DropDuplicates(f), i, c)
  {
    var d := DropDuplicates(f);
    var g := FillMedians(d, NumericColumns(d));
    MedianStageCell(d, i, c);
    ModeStageCell(g, i, c);
    if c in d.columns && IsNumeric(Column(d, c)) {
      FillMediansKeepsNumeric(d, NumericColumns(d), c);
    } else {
      MedianStageOther(d, c);
    }
  }

  // ---------------------------------------------------------------------------------------
  // save_metrics

  /** A business figure of the report: `None` when the column is absent, NaN when a mean is
      taken over no numbers, and otherwise the amount. */
  datatype Reading = NoColumn | NotANumber | Amount(x: real)

  datatype PreprocessingReport = PreprocessingReport(originalRows: nat, duplicatesRemoved: nat,
                                                     finalRows: nat, columnsCount: nat)

  datatype BusinessReport = BusinessReport(overallLossRatio: Reading, claimFrequency: Reading,
                                           totalPremium: Reading, totalClaims: Reading)

  datatype Metrics = Metrics(preprocessing: PreprocessingReport, business: BusinessReport)

  /** The four reported column names, in the order save_metrics reads them. */
  const ReportedColumns: seq<string> := ["LossRatio", "HasClaim", "TotalPremium", "TotalClaims"]

  /** The exception save_metrics raises when a reported column holds something other than
      numbers. */
  datatype ReportError = NotNumeric(column: string)

  /** The reported columns present are numeric. */
  predicate Reportable(f: Frame)
  {
    forall c :: c in ReportedColumns && c in f.columns ==> IsNumeric(Column(f, c))
  }

  /** The first of `cols` present in the table that is not numeric. */
  function FirstNotNumeric(f: Frame, cols: seq<string>): (r: Option<string>)
    ensures r.None? <==> forall c :: c in cols && c in f.columns ==> IsNumeric(Column(f, c))
    ensures r.Some? ==> r.value in cols && r.value in f.columns && !IsNumeric(Column(f, r.value))
  {
    if |cols| == 0 then None
    else if cols[0] in f.columns && !IsNumeric(Column(f, cols[0])) then Some(cols[0])
    else FirstNotNumeric(f, cols[1..])
  }

  /** `float(df[c].mean()) if c in df.columns else None`: the mean skips missing cells. */
  function MeanReading(f: Frame, c: string): (r: Reading)
    ensures r == NoColumn <==> c !in f.columns
    ensures r == NotANumber <==> c in f.columns && |Numbers(Present(Column(f, c)))| == 0
    ensures r.Amount? ==>
              r.x * (|Numbers(Present(Column(f, c)))| as real) == Sum(Numbers(Present(Column(f, c))))
  {
    if c !in f.columns then NoColumn
    else match Mean(Numbers(Present(Column(f, c))))
      case None => NotANumber
      case Some(m) => Amount(m)
  }

  /** `float(df[c].sum()) if c in df.columns else None`: the sum of no numbers is 0. */
  function SumReading(f: Frame, c: string): (r: Reading)
    ensures r == NoColumn <==> c !in f.columns
    ensures r != NotANumber
    ensures c in f.columns ==> r == Amount(Sum(Numbers(Present(Column(f, c)))))
  {
    if c !in f.columns then NoColumn else Amount(Sum(Numbers(Present(Column(f, c)))))
  }

  function BusinessSummary(f: Frame): BusinessReport
  {
    BusinessReport(MeanReading(f, "LossRatio"), MeanReading(f, "HasClaim"),
                   SumReading(f, "TotalPremium"), SumReading(f, "TotalClaims"))
  }

  /** save_metrics on the cleaned table, as written: it raises on the first reported column
      that is not numeric; otherwise, `duplicates_removed` not being a local of save_metrics,
      it reports 0 duplicates, and the original row count it reports is the cleaned table's. */
  function SaveMetrics(f: Frame): (r: Result<Metrics, ReportError>)
    ensures r.Failure? <==> !Reportable(f)
    ensures r.Failure? ==> && r.error.column in ReportedColumns && r.error.column in f.columns
                           && !IsNumeric(Column(f, r.error.column))
    ensures r.Success? ==> && r.value.preprocessing.duplicatesRemoved == 0
                           && r.value.preprocessing.originalRows == |f.rows|
                           && r.value.preprocessing.finalRows == |f.rows|
                           && r.value.preprocessing.columnsCount == |f.columns|
    ensures r.Success? ==> && r.value.business.overallLossRatio == MeanReading(f, "LossRatio")
                           && r.value.business.claimFrequency == MeanReading(f, "HasClaim")
                           && r.value.business.totalPremium == SumReading(f, "TotalPremium")
                           && r.value.business.totalClaims == SumReading(f, "TotalClaims")
  {
    match FirstNotNumeric(f, ReportedColumns)
    case Some(c) => Failure(NotNumeric(c))
    case None => Success(Metrics(PreprocessingReport(|f.rows|, 0, |f.rows|, |f.columns|), BusinessSummary(f)))
  }

  /** The report save_metrics evidently means to write for the table `raw` handed to
      clean_data: the rows it had, the duplicates dropped and the rows that remain. */
  function IntendedMetrics(raw: Frame): (r: Result<Metrics, ReportError>)
    requires NoDuplicates(raw.columns)
    ensures r.Failure? <==> !Reportable(CleanedFrame(raw))
    ensures r.Success? ==>
              && r.value.preprocessing.originalRows == |raw.rows|
              && r.value.preprocessing.originalRows ==
                   r.value.preprocessing.finalRows + r.value.preprocessing.duplicatesRemoved
              && (r.value.preprocessing.duplicatesRemoved == 0 <==> NoDuplicates(raw.rows))
              && r.value.preprocessing.columnsCount == |raw.columns|
  {
    CleanedFrameCells(raw);
    match SaveMetrics(CleanedFrame(raw))
    case Failure(e) => Failure(e)
    case Success(m) =>
      Success(m.(preprocessing := m.preprocessing.(originalRows := |raw.rows|,
                                                   duplicatesRemoved := DuplicatesRemoved(raw))))
  }

  /** The report as written and the intended one differ only in the original row count and
      the duplicate count, and agree on those exactly when the input had no duplicate rows. */
  lemma MetricsDifferOnlyInDuplicates(raw: Frame)
    requires NoDuplicates(raw.columns)
    ensures var written := SaveMetrics(CleanedFrame(raw));
            var intended := IntendedMetrics(raw);
            && (written.Success? <==> intended.Success?)
            && (written.Success? ==>
                  && written.value.business == intended.value.business
                  && written.value.preprocessing.finalRows == intended.value.preprocessing.finalRows
                  && written.value.preprocessing.columnsCount == intended.value.preprocessing.columnsCount
                  && (written.value == intended.value <==> NoDuplicates(raw.rows)))
  {
    CleanedFrameCells(raw);
  }

  /** A table of two equal rows: clean_data drops one, yet the report says none was dropped
      and that the table had one row, where two rows and one duplicate are meant. */
  lemma DuplicatesNotReported()
    ensures var row := map["Province" := Some(Str("Gauteng"))];
            var raw := Frame(["Province"], [row, row]);
            && SaveMetrics(CleanedFrame(raw)).Success?
            && SaveMetrics(CleanedFrame(raw)).value.preprocessing == PreprocessingReport(1, 0, 1, 1)
            && IntendedMetrics(raw).Success?
            && IntendedMetrics(raw).value.preprocessing == PreprocessingReport(2, 1, 1, 1)
  {
    var row := map["Province" := Some(Str("Gauteng"))];
    var raw := Frame(["Province"], [row, row]);
    assert Distinct([row]) == [row];
    assert Distinct(raw.rows) == [row];
    assert !AnyMissing(DropDuplicates(raw));
  }

  /** calculate_business_metrics keeps the header free of repeats and every row in step with
      it, and only ever adds columns. */
  lemma BusinessMetricsWellFormed(f: Frame, currentYear: int)
    requires WellFormed(f) && Derivable(f)
    ensures WellFormed(BusinessMetrics(f, currentYear))
    ensures forall c :: c in f.columns ==> c in BusinessMetrics(f, currentYear).columns
    ensures "TotalClaims" in f.columns && "TotalPremium" in f.columns ==>
              "LossRatio" in BusinessMetrics(f, currentYear).columns &&
              "HasClaim" in BusinessMetrics(f, currentYear).columns
  {
    var g := f;
    if "TotalClaims" in f.columns && "TotalPremium" in f.columns {
      var ratios := LossRatios(Column(f, "TotalClaims"), Column(f, "TotalPremium"));
      WithColumnWellFormed(f, "LossRatio", ratios);
      var h := WithColumn(f, "LossRatio", ratios);
      WithColumnWellFormed(h, "HasClaim", Indicators(Column(h, "TotalClaims")));
      g := WithColumn(h, "HasClaim", Indicators(Column(h, "TotalClaims")));
    }
    assert g == WithClaimColumns(f);
    assert Column(g, "Year") == Column(f, "Year");
    if "VehicleAge" !in g.columns && "Year" in g.columns {
      WithColumnWellFormed(g, "VehicleAge", VehicleAges(Column(g, "Year"), currentYear));
    }
  }

  /** The values of a column none of whose cells is missing are the column's own, in order. */
  lemma {:induction false} PresentAll(cells: seq<Cell>)
    requires forall i :: 0 <= i < |cells| ==> cells[i].Some?
    ensures |Present(cells)| == |cells|
    ensures forall i :: 0 <= i < |cells| ==> Present(cells)[i] == cells[i].value
  {
    if |cells| > 0 {
      PresentAll(cells[1..]);
      var p := (c: Cell) => c.Some?;
      assert DropNA(cells) == [cells[0]] + DropNA(cells[1..]);
    }
  }

  /** The numbers of all-numeric values are the values' own, in order. */
  lemma {:induction false} NumbersAll(vals: seq<Value>)
    requires forall i :: 0 <= i < |vals| ==> vals[i].Num?
    ensures |Numbers(vals)| == |vals|
    ensures forall i :: 0 <= i < |vals| ==> Numbers(vals)[i] == vals[i].x
  {
    if |vals| > 0 {
      NumbersAll(vals[1..]);
    }
  }

  /** A cell of the de-duplicated table is a cell of some input row, in the same column. */
  lemma DropDuplicatesCell(f: Frame, i: nat, c: string) returns (j: nat)
    requires i < |DropDuplicates(f).rows|
    ensures j < |f.rows| && Get(DropDuplicates(f).rows[i], c) == Get(f.rows[j], c)
  {
    var r := Distinct(f.rows)[i];
    assert r in Distinct(f.rows);
    DistinctSameElements(f.rows);
    j := FirstIndex(f.rows, r);
  }

  /** Every cell of a reported column is a number or missing, and every HasClaim cell is the
      number 0 or 1. */
  predicate ReportedCellsSound(f: Frame)
  {
    forall j, c :: 0 <= j < |f.rows| && c in ReportedColumns ==>
      && (Get(f.rows[j], c).Some? ==> Get(f.rows[j], c).value.Num?)
      && (c == "HasClaim" ==> Get(f.rows[j], c) == Some(Num(0.0)) || Get(f.rows[j], c) == Some(Num(1.0)))
  }

  /** calculate_business_metrics leaves sound reported cells whenever it derives the claim
      columns. */
  lemma BusinessMetricsReported(raw: Frame, currentYear: int)
    requires Derivable(raw)
    requires "TotalClaims" in raw.columns && "TotalPremium" in raw.columns
    ensures ReportedCellsSound(BusinessMetrics(raw, currentYear))
  {
    var b := BusinessMetrics(raw, currentYear);
    forall j, c | 0 <= j < |b.rows| && c in ReportedColumns
      ensures Get(b.rows[j], c).Some? ==> Get(b.rows[j], c).value.Num?
      ensures c == "HasClaim" ==> Get(b.rows[j], c) == Some(Num(0.0)) || Get(b.rows[j], c) == Some(Num(1.0))
    {
      BusinessMetricsCells(raw, currentYear, j, c);
    }
  }

  /** clean_data keeps reported cells sound: the rows it keeps are input rows, HasClaim has
      nothing missing to fill, and a numeric column is filled with a number or not at all. */
  lemma CleaningKeepsReportedCells(b: Frame)
    requires NoDuplicates(b.columns) && ReportedCellsSound(b)
    ensures ReportedCellsSound(CleanedFrame(b))
    ensures CleanedFrame(b).columns == b.columns
    ensures |CleanedFrame(b).rows| == 0 <==> |b.rows| == 0
  {
    var d := DropDuplicates(b);
    var out := CleanedFrame(b);
    CleanedFrameCells(b);
    forall i, c | 0 <= i < |d.rows| && c in ReportedColumns
      ensures Get(d.rows[i], c).Some? ==> Get(d.rows[i], c).value.Num?
      ensures c == "HasClaim" ==> Get(d.rows[i], c) == Some(Num(0.0)) || Get(d.rows[i], c) == Some(Num(1.0))
    {
      var j := DropDuplicatesCell(b, i, c);
    }
    forall i, c | 0 <= i < |out.rows| && c in ReportedColumns
      ensures Get(out.rows[i], c).Some? ==> Get(out.rows[i], c).value.Num?
      ensures c == "HasClaim" ==> Get(out.rows[i], c) == Some(Num(0.0)) || Get(out.rows[i], c) == Some(Num(1.0))
    {
      assert Get(out.rows[i], c) == CleanedCell(d, i, c);
    }
    DistinctSameElements(b.rows);
    if |b.rows| > 0 {
      assert b.rows[0] in Distinct(b.rows);
    }
  }

  /** A table with sound reported cells can be reported on, and when it has a HasClaim
      column its claim frequency is NaN for no rows and otherwise a proportion. */
  lemma SoundClaimFrequency(f: Frame)
    requires ReportedCellsSound(f) && "HasClaim" in f.columns
    ensures SaveMetrics(f).Success?
    ensures var r := SaveMetrics(f).value.business.claimFrequency;
            (r == NotANumber <==> |f.rows| == 0) && (r.Amount? ==> 0.0 <= r.x <= 1.0)
  {
    forall c | c in ReportedColumns && c in f.columns
      ensures IsNumeric(Column(f, c))
    {
    }
    var col := Column(f, "HasClaim");
    assert "HasClaim" in ReportedColumns by { assert ReportedColumns[1] == "HasClaim"; }
    forall i | 0 <= i < |col|
      ensures col[i] == Some(Num(0.0)) || col[i] == Some(Num(1.0))
    {
      assert col[i] == Get(f.rows[i], "HasClaim");
    }
    PresentAll(col);
    NumbersAll(Present(col));
    if |f.rows| > 0 {
      MeanWithin(Numbers(Present(col)), 0.0, 1.0);
    }
  }

  /** Cleaning a table with sound reported cells and a HasClaim column leaves one save_metrics
      can report on, whose claim frequency is NaN for no rows and otherwise a proportion. */
  lemma CleanedClaimFrequency(b: Frame)
    requires NoDuplicates(b.columns) && ReportedCellsSound(b) && "HasClaim" in b.columns
    ensures SaveMetrics(CleanedFrame(b)).Success?
    ensures var r := SaveMetrics(CleanedFrame(b)).value.business.claimFrequency;
            (r == NotANumber <==> |b.rows| == 0) && (r.Amount? ==> 0.0 <= r.x <= 1.0)
  {
    CleaningKeepsReportedCells(b);
    SoundClaimFrequency(CleanedFrame(b));
  }

  /** The preprocessing pipeline (business metrics, then cleaning) leaves a table save_metrics
      can report on, and its claim frequency is a proportion: NaN for an empty table and
      otherwise between 0 and 1. */
  lemma PipelineClaimFrequency(raw: Frame, currentYear: int)
    requires WellFormed(raw) && Derivable(raw)
    requires "TotalClaims" in raw.columns && "TotalPremium" in raw.columns
    ensures SaveMetrics(CleanedFrame(BusinessMetrics(raw, currentYear))).Success?
    ensures var r := SaveMetrics(CleanedFrame(BusinessMetrics(raw, currentYear))).value.business.claimFrequency;
            (r == NotANumber <==> |raw.rows| == 0) && (r.Amount? ==> 0.0 <= r.x <= 1.0)
  {
    BusinessMetricsWellFormed(raw, currentYear);
    BusinessMetricsReported(raw, currentYear);
    CleanedClaimFrequency(BusinessMetrics(raw, currentYear));
  }

  /** main, after loading: business metrics in place, cleaning into a new table, and the
      report on the cleaned table. When the claim columns were derived, the report is
      written. */
  method Preprocess(df: DataFrame, currentYear: int) returns (out: DataFrame, metrics: Result<Metrics, ReportError>)
    requires WellFormed(df.Snapshot()) && Derivable(df.Snapshot())
    modifies df
    ensures df.Snapshot() == BusinessMetrics(old(df.Snapshot()), currentYear)
    ensures fresh(out) && out.Snapshot() == CleanedFrame(df.Snapshot())
    ensures metrics == SaveMetrics(out.Snapshot())
    ensures "TotalClaims" in old(df.columns) && "TotalPremium" in old(df.columns) ==> metrics.Success?
  {
    ghost var raw := df.Snapshot();
    CalculateBusinessMetrics(df, currentYear);
    out := CleanData(df);
    if "TotalClaims" in raw.columns && "TotalPremium" in raw.columns {
      PipelineClaimFrequency(raw, currentYear);
    }
    metrics := SaveMetrics(out.Snapshot());
  }
}
