/** The complete hypothesis tester: a one-way ANOVA of loss ratios across provinces, a
    Welch t-test of loss ratios between high- and low-density postal codes, and a
    chi-square test of claims against gender with the male and female claim rates. */
module CompleteHypothesis {
  import opened Wrappers
  import opened Values
  import opened Seqs
  import opened Aggregates
  import opened Frames
  import opened ScipyStats

  /** The claim-rate fields of the gender result; the percentage difference is not a finite
      number when the female rate is 0. */
  datatype ClaimRates = ClaimRates(male: real, female: real, percentageDifference: Option<real>)

  /** One entry of `self.results`. */
  datatype TestResult =
    | Anova(fStatistic: real, decision: Decision)
    | Welch(tStatistic: real, decision: Decision)
    | ChiSquareTest(chi2Statistic: real, degreesFreedom: int, decision: Decision,
                    claimRates: Option<ClaimRates>)

  /** What a test method does: raise, return None, or return a result. */
  type Outcome = Result<Option<TestResult>, Error>

  // ---------------------------------------------------------------------------------------
  // Hypothesis 1: provinces

  /** Fewest rows a province needs to take part in the ANOVA. */
  const MinProvinceRows: nat := 10

  /** `df['Province'].unique()`: every distinct cell, missing included, in order of first
      appearance. */
  function Provinces(f: Frame): seq<Cell>
  {
    Distinct(Column(f, "Province"))
  }

  /** `df[df['Province'] == p]` */
  function ProvinceRows(f: Frame, p: Cell): seq<Row>
  {
    RowsWhere(f.rows, "Province", p)
  }

  /** `rows['LossRatio'].dropna().values` */
  function LossRatioSample(rows: seq<Row>): seq<Cell>
  {
    DropNA(CellsOf(rows, "LossRatio"))
  }

  /** The loop over `ps`: a province with at least ten rows contributes its non-missing loss
      ratios when there are any; without a LossRatio column such a province raises. */
  function SamplesOver(f: Frame, ps: seq<Cell>): Result<seq<seq<Cell>>, Error>
  {
    if |ps| == 0 then Success([])
    else
      match SamplesOver(f, ps[..|ps| - 1])
      case Failure(e) => Failure(e)
      case Success(acc) =>
        var rows := ProvinceRows(f, ps[|ps| - 1]);
        if |rows| < MinProvinceRows then Success(acc)
        else if "LossRatio" !in f.columns then Failure(KeyError(Str("LossRatio")))
        else if |LossRatioSample(rows)| > 0 then Success(acc + [LossRatioSample(rows)])
        else Success(acc)
  }

  /** A province takes part in the ANOVA. */
  predicate Qualifies(f: Frame, p: Cell)
  {
    |ProvinceRows(f, p)| >= MinProvinceRows && |LossRatioSample(ProvinceRows(f, p))| > 0
  }

  /** The provinces that take part, in the order given. */
  function Qualifying(f: Frame, ps: seq<Cell>): seq<Cell>
  {
    Filter(ps, (p: Cell) => Qualifies(f, p))
  }

  /** The samples of the given provinces. */
  function SamplesOf(f: Frame, qs: seq<Cell>): (r: seq<seq<Cell>>)
    ensures |r| == |qs|
    ensures forall i :: 0 <= i < |qs| ==> r[i] == LossRatioSample(ProvinceRows(f, qs[i]))
  {
    seq(|qs|, i requires 0 <= i < |qs| => LossRatioSample(ProvinceRows(f, qs[i])))
  }

  /** With a LossRatio column the loop never raises and collects exactly the samples of the
      qualifying provinces, in order. */
  lemma {:induction false} SamplesOverQualifying(f: Frame, ps: seq<Cell>)
    requires "LossRatio" in f.columns
    ensures SamplesOver(f, ps) == Success(SamplesOf(f, Qualifying(f, ps)))
  {
    if |ps| > 0 {
      var p, x := ps[..|ps| - 1], ps[|ps| - 1];
      SamplesOverQualifying(f, p);
      assert ps == p + [x];
      FilterSnoc(p, x, (q: Cell) => Qualifies(f, q));
      var qs := Qualifying(f, p);
      if Qualifies(f, x) {
        assert SamplesOf(f, qs + [x]) == SamplesOf(f, qs) + [LossRatioSample(ProvinceRows(f, x))];
      } else {
        assert Qualifying(f, ps) == qs + [] == qs;
      }
    }
  }

  /** Without a LossRatio column the loop raises exactly when some province has at least ten
      rows, and otherwise collects nothing. */
  lemma {:induction false} SamplesOverNoLossRatio(f: Frame, ps: seq<Cell>)
    requires "LossRatio" !in f.columns
    ensures SamplesOver(f, ps) ==
              if exists i :: 0 <= i < |ps| && |ProvinceRows(f, ps[i])| >= MinProvinceRows
              then Failure(KeyError(Str("LossRatio"))) else Success([])
  {
    if |ps| > 0 {
      var p := ps[..|ps| - 1];
      SamplesOverNoLossRatio(f, p);
      if exists i :: 0 <= i < |p| && |ProvinceRows(f, p[i])| >= MinProvinceRows {
        var i :| 0 <= i < |p| && |ProvinceRows(f, p[i])| >= MinProvinceRows;
        assert ps[i] == p[i];
      }
      if exists i :: 0 <= i < |ps| && |ProvinceRows(f, ps[i])| >= MinProvinceRows {
        var i :| 0 <= i < |ps| && |ProvinceRows(f, ps[i])| >= MinProvinceRows;
        if i < |p| {
          assert ps[i] == p[i];
        }
      }
    }
  }

  /** A loop that has raised stays raised. */
  lemma {:induction false} SamplesOverFailed(f: Frame, ps: seq<Cell>, i: nat)
    requires i <= |ps| && SamplesOver(f, ps[..i]).Failure?
    ensures SamplesOver(f, ps) == SamplesOver(f, ps[..i])
    decreases |ps| - i
  {
    if i < |ps| {
      assert ps[..i + 1][..i] == ps[..i];
      SamplesOverFailed(f, ps, i + 1);
    } else {
      assert ps[..i] == ps;
    }
  }

  /** test_1_province_risk: a missing Province column raises; the ANOVA runs on the
      collected samples when there are at least two, and otherwise there is no result. */
  function ProvinceRisk(f: Frame, stats: Statistics, alpha: real): (r: Outcome)
    ensures "Province" !in f.columns ==> r == Failure(KeyError(Str("Province")))
    ensures r.Success? && r.value.Some? ==>
              r.value.value.Anova? && Decided(r.value.value.decision) && r.value.value.decision.alpha == alpha
  {
    if "Province" !in f.columns then Failure(KeyError(Str("Province")))
    else
      match SamplesOver(f, Provinces(f))
      case Failure(e) => Failure(e)
      case Success(samples) =>
        if |samples| >= 2 then
          var t := stats.fOneway(samples);
          Success(Some(Anova(t.statistic, Decide(t.pValue, alpha))))
        else Success(None)
  }

  /** Which provinces enter the ANOVA: exactly those that appear in the Province column with
      at least ten rows and at least one non-missing loss ratio, each contributing only its
      non-missing loss ratios, in order of first appearance; the ANOVA runs exactly when at
      least two qualify. */
  lemma ProvinceSelection(f: Frame, stats: Statistics, alpha: real)
    requires "Province" in f.columns && "LossRatio" in f.columns
    ensures var col := Column(f, "Province");
            var qs := Qualifying(f, Provinces(f));
            && (forall p :: p in qs <==> p in col && |ProvinceRows(f, p)| >= MinProvinceRows &&
                                         |LossRatioSample(ProvinceRows(f, p))| > 0)
            && (forall j, k :: 0 <= j < k < |qs| ==> FirstIndex(col, qs[j]) < FirstIndex(col, qs[k]))
            && (forall i, k :: 0 <= i < |qs| && 0 <= k < |SamplesOf(f, qs)[i]| ==> SamplesOf(f, qs)[i][k].Some?)
            && ProvinceRisk(f, stats, alpha) ==
                 if |qs| >= 2 then
                   Success(Some(Anova(stats.fOneway(SamplesOf(f, qs)).statistic,
                                      Decide(stats.fOneway(SamplesOf(f, qs)).pValue, alpha))))
                 else Success(None)
  {
    var col := Column(f, "Province");
    var ps := Provinces(f);
    var q := (p: Cell) => Qualifies(f, p);
    var qs := Qualifying(f, ps);
    SamplesOverQualifying(f, ps);
    DistinctSameElements(col);
    DistinctNoDuplicates(col);
    DistinctFirstAppearance(col);
    forall p | p in col && Qualifies(f, p) ensures p in qs {
      FilterKeeps(ps, q, p);
    }
    FilterOrdered(ps, q);
    forall j, k | 0 <= j < k < |qs| ensures FirstIndex(col, qs[j]) < FirstIndex(col, qs[k]) {
      var a, b := IndexOf(ps, qs[j]), IndexOf(ps, qs[k]);
      assert ps[a] == qs[j] && ps[b] == qs[k];
    }
  }

  // ---------------------------------------------------------------------------------------
  // Hypotheses 2 and 3: postal-code density

  /** The present postal codes, one per row that has one. */
  function PostalValues(f: Frame): seq<Value>
  {
    Present(Column(f, "PostalCode"))
  }

  /** The index of `value_counts()`: each distinct present code once. */
  function PostalCodes(f: Frame): seq<Value>
  {
    Distinct(PostalValues(f))
  }

  /** The counts of the given codes among the values. */
  function CountsOf(vals: seq<Value>, codes: seq<Value>): (r: seq<real>)
    ensures |r| == |codes|
  {
    if |codes| == 0 then [] else [Count(vals, codes[0]) as real] + CountsOf(vals, codes[1..])
  }

  /** `zipcode_counts.median()`: NaN (None) when no row has a postal code. */
  function MedianCount(f: Frame): Option<real>
  {
    Median(CountsOf(PostalValues(f), PostalCodes(f)))
  }

  /** A code occurs more often than the median count (false against NaN). */
  predicate Dense(f: Frame, v: Value)
  {
    MedianCount(f).Some? && Count(PostalValues(f), v) as real > MedianCount(f).value
  }

  /** `zipcode_counts[zipcode_counts > median_count].index` */
  function HighDensityCodes(f: Frame): seq<Value>
  {
    Filter(PostalCodes(f), (v: Value) => Dense(f, v))
  }

  /** `zipcode_counts[zipcode_counts <= median_count].index` (computed, then unused). */
  function LowDensityCodes(f: Frame): seq<Value>
  {
    Filter(PostalCodes(f), (v: Value) => !Dense(f, v))
  }

  /** `df['PostalCode'].isin(high_density_zips)`: a missing code is in no list. */
  function HighDensityFlags(f: Frame): (r: seq<Cell>)
    ensures |r| == |f.rows|
    ensures forall i :: 0 <= i < |r| ==> r[i].Some? && r[i].value.Flag?
  {
    var col := Column(f, "PostalCode");
    var high := HighDensityCodes(f);
    seq(|col|, i requires 0 <= i < |col| => Some(Flag(col[i].Some? && col[i].value in high)))
  }

  /** `df[df['HighDensity']]` and `df[~df['HighDensity']]` */
  function HighRows(g: Frame): seq<Row>
  {
    Filter(g.rows, (r: Row) => Get(r, "HighDensity") == Some(Flag(true)))
  }

  function LowRows(g: Frame): seq<Row>
  {
    Filter(g.rows, (r: Row) => Get(r, "HighDensity") != Some(Flag(true)))
  }

  /** test_2_3_zipcode_density: without a PostalCode column nothing happens; otherwise the
      HighDensity column is added in place, a missing LossRatio column then raises, and the
      Welch test runs when both sides have a non-missing loss ratio. */
  function DensityTest(f: Frame, stats: Statistics, alpha: real): (r: (Frame, Outcome))
    ensures "PostalCode" !in f.columns ==> r == (f, Success(None))
    ensures "PostalCode" in f.columns ==> r.0 == WithColumn(f, "HighDensity", HighDensityFlags(f))
    ensures r.1.Success? && r.1.value.Some? ==>
              r.1.value.value.Welch? && Decided(r.1.value.value.decision) && r.1.value.value.decision.alpha == alpha
  {
    if "PostalCode" !in f.columns then (f, Success(None))
    else
      var g := WithColumn(f, "HighDensity", HighDensityFlags(f));
      if "LossRatio" !in g.columns then (g, Failure(KeyError(Str("LossRatio"))))
      else
        var high := LossRatioSample(HighRows(g));
        var low := LossRatioSample(LowRows(g));
        if |high| > 0 && |low| > 0 then
          var t := stats.ttestInd(high, low);
          (g, Success(Some(Welch(t.statistic, Decide(t.pValue, alpha)))))
        else (g, Success(None))
  }

  /** A row is marked high-density exactly when it has a postal code that occurs strictly
      more often than the median count of all codes. */
  lemma HighDensityIff(f: Frame, i: nat)
    requires i < |f.rows|
    ensures var cell := Get(f.rows[i], "PostalCode");
            HighDensityFlags(f)[i] == Some(Flag(cell.Some? && Dense(f, cell.value)))
  {
    var col := Column(f, "PostalCode");
    if col[i].Some? {
      PresentValues(col, col[i].value);
      DistinctSameElements(PostalValues(f));
      if Dense(f, col[i].value) {
        FilterKeeps(PostalCodes(f), (v: Value) => Dense(f, v), col[i].value);
      }
    }
  }

  /** Row `i` has a postal code that occurs more often than the median count. */
  predicate DenseRow(f: Frame, i: nat)
    requires i < |f.rows|
  {
    var cell := Get(f.rows[i], "PostalCode");
    cell.Some? && Dense(f, cell.value)
  }

  /** The outcome of test 2_3 once PostalCode exists: a KeyError without a LossRatio
      column; otherwise Welch's test on the non-missing loss ratios of the flagged and of the
      unflagged rows when both are non-empty, and no result when either is empty. */
  lemma DensitySelection(f: Frame, stats: Statistics, alpha: real)
    requires "PostalCode" in f.columns
    ensures var g := WithColumn(f, "HighDensity", HighDensityFlags(f));
            var high := LossRatioSample(HighRows(g));
            var low := LossRatioSample(LowRows(g));
            && DensityTest(f, stats, alpha).1 ==
                 (if "LossRatio" !in f.columns then Failure(KeyError(Str("LossRatio")))
                  else if |high| > 0 && |low| > 0 then
                    Success(Some(Welch(stats.ttestInd(high, low).statistic,
                                       Decide(stats.ttestInd(high, low).pValue, alpha))))
                  else Success(None))
            && (forall k :: 0 <= k < |high| ==> high[k].Some?)
            && (forall k :: 0 <= k < |low| ==> low[k].Some?)
  {
  }

  /** A row is on the high side exactly when its postal code is dense, and on the low side
      otherwise; its present loss ratio then joins that side's sample. */
  lemma DensitySides(f: Frame, i: nat)
    requires i < |f.rows|
    ensures var g := WithColumn(f, "HighDensity", HighDensityFlags(f));
            var cell := Get(f.rows[i], "LossRatio");
            && (g.rows[i] in HighRows(g) <==> DenseRow(f, i))
            && (g.rows[i] in LowRows(g) <==> !DenseRow(f, i))
            && (cell.Some? && DenseRow(f, i) ==> cell in LossRatioSample(HighRows(g)))
            && (cell.Some? && !DenseRow(f, i) ==> cell in LossRatioSample(LowRows(g)))
  {
    var g := WithColumn(f, "HighDensity", HighDensityFlags(f));
    var isHigh := (r: Row) => Get(r, "HighDensity") == Some(Flag(true));
    var isLow := (r: Row) => Get(r, "HighDensity") != Some(Flag(true));
    var cell := Get(f.rows[i], "LossRatio");
    HighDensityIff(f, i);
    assert Get(g.rows[i], "LossRatio") == cell;
    if DenseRow(f, i) {
      FilterKeeps(g.rows, isHigh, g.rows[i]);
      SampleHolds(HighRows(g), g.rows[i]);
    } else {
      FilterKeeps(g.rows, isLow, g.rows[i]);
      SampleHolds(LowRows(g), g.rows[i]);
    }
  }

  /** The present loss ratio of a row among the given rows is in their sample. */
  lemma SampleHolds(rows: seq<Row>, r: Row)
    requires r in rows
    ensures Get(r, "LossRatio").Some? ==> Get(r, "LossRatio") in LossRatioSample(rows)
  {
    var j :| 0 <= j < |rows| && rows[j] == r;
    var cells := CellsOf(rows, "LossRatio");
    assert cells[j] == Get(r, "LossRatio");
    if cells[j].Some? {
      FilterKeeps(cells, (c: Cell) => c.Some?, cells[j]);
    }
  }

  /** Every cell of a side's sample is the present loss ratio of some row on that side. */
  lemma DensitySampleOrigin(f: Frame, x: Cell)
    ensures var g := WithColumn(f, "HighDensity", HighDensityFlags(f));
            && (x in LossRatioSample(HighRows(g)) ==>
                  x.Some? && exists i :: 0 <= i < |f.rows| && DenseRow(f, i) && Get(f.rows[i], "LossRatio") == x)
            && (x in LossRatioSample(LowRows(g)) ==>
                  x.Some? && exists i :: 0 <= i < |f.rows| && !DenseRow(f, i) && Get(f.rows[i], "LossRatio") == x)
  {
    var g := WithColumn(f, "HighDensity", HighDensityFlags(f));
    if x in LossRatioSample(HighRows(g)) {
      var i := SampleRow(g, HighRows(g), x);
      HighDensityIff(f, i);
    }
    if x in LossRatioSample(LowRows(g)) {
      var i := SampleRow(g, LowRows(g), x);
      HighDensityIff(f, i);
    }
  }

  /** A row of `g` among `rows` whose loss ratio is the given sample cell. */
  lemma SampleRow(g: Frame, rows: seq<Row>, x: Cell) returns (i: nat)
    requires forall r :: r in rows ==> r in g.rows
    requires x in LossRatioSample(rows)
    ensures x.Some? && i < |g.rows| && g.rows[i] in rows && Get(g.rows[i], "LossRatio") == x
  {
    var cells := CellsOf(rows, "LossRatio");
    assert x in cells && x.Some?;
    var j :| 0 <= j < |cells| && cells[j] == x;
    assert rows[j] in rows;
    var k :| 0 <= k < |g.rows| && g.rows[k] == rows[j];
    i := k;
  }

  /** Every code lands on exactly one side, and so does every row. */
  lemma DensityPartition(f: Frame)
    ensures multiset(HighDensityCodes(f)) + multiset(LowDensityCodes(f)) == multiset(PostalCodes(f))
    ensures var g := WithColumn(f, "HighDensity", HighDensityFlags(f));
            multiset(HighRows(g)) + multiset(LowRows(g)) == multiset(g.rows)
  {
    FilterPartition(PostalCodes(f), (v: Value) => Dense(f, v), (v: Value) => !Dense(f, v));
    var g := WithColumn(f, "HighDensity", HighDensityFlags(f));
    FilterPartition(g.rows, (r: Row) => Get(r, "HighDensity") == Some(Flag(true)),
                    (r: Row) => Get(r, "HighDensity") != Some(Flag(true)));
  }

  /** The codes above a threshold are as many as the counts above it. */
  lemma {:induction false} CountsAbove(vals: seq<Value>, codes: seq<Value>, m: real)
    ensures |Filter(codes, (v: Value) => Count(vals, v) as real > m)| == CountAbove(CountsOf(vals, codes), m)
  {
    if |codes| > 0 {
      CountsAbove(vals, codes[1..], m);
    }
  }

  /** At most half of the codes are high-density. */
  lemma AtMostHalfDense(f: Frame)
    ensures |HighDensityCodes(f)| <= |PostalCodes(f)| / 2
  {
    var counts := CountsOf(PostalValues(f), PostalCodes(f));
    if |counts| > 0 {
      var m := MedianCount(f).value;
      CountsAbove(PostalValues(f), PostalCodes(f), m);
      MedianBalanced(counts);
      FilterCongruent(PostalCodes(f), (v: Value) => Dense(f, v), (v: Value) => Count(PostalValues(f), v) as real > m);
    }
  }

  /** When every code occurs equally often none is high-density. */
  lemma UniformCountsNoneDense(f: Frame, c: nat)
    requires forall v :: v in PostalCodes(f) ==> Count(PostalValues(f), v) == c
    ensures HighDensityCodes(f) == []
  {
    var codes := PostalCodes(f);
    var counts := CountsOf(PostalValues(f), codes);
    UniformCounts(PostalValues(f), codes, c);
    if |counts| > 0 {
      MedianOfConstant(counts, c as real);
    }
    FilterNone(codes, (v: Value) => Dense(f, v));
  }

  /** With no high-density code no row is on the high side. */
  lemma NoDenseCodesNoHighRows(f: Frame)
    requires HighDensityCodes(f) == []
    ensures HighRows(WithColumn(f, "HighDensity", HighDensityFlags(f))) == []
  {
    var g := WithColumn(f, "HighDensity", HighDensityFlags(f));
    FilterNone(g.rows, (r: Row) => Get(r, "HighDensity") == Some(Flag(true)));
  }

  /** When every code occurs equally often, the test adds the HighDensity column (all false)
      and, with a LossRatio column, returns no result. */
  lemma UniformCountsSkip(f: Frame, stats: Statistics, alpha: real, c: nat)
    requires "PostalCode" in f.columns && "LossRatio" in f.columns
    requires forall v :: v in PostalCodes(f) ==> Count(PostalValues(f), v) == c
    ensures HighDensityCodes(f) == []
    ensures DensityTest(f, stats, alpha) == (WithColumn(f, "HighDensity", HighDensityFlags(f)), Success(None))
  {
    UniformCountsNoneDense(f, c);
    NoDenseCodesNoHighRows(f);
  }

  lemma {:induction false} UniformCounts(vals: seq<Value>, codes: seq<Value>, c: nat)
    requires forall v :: v in codes ==> Count(vals, v) == c
    ensures forall i :: 0 <= i < |codes| ==> CountsOf(vals, codes)[i] == c as real
  {
    if |codes| > 0 {
      UniformCounts(vals, codes[1..], c);
    }
  }

  // ---------------------------------------------------------------------------------------
  // Hypothesis 4: gender

  /** The rows `pd.crosstab` counts: those with both a gender and a claim flag. */
  function Paired(f: Frame): seq<Row>
  {
    Filter(f.rows, (r: Row) => Get(r, "Gender").Some? && Get(r, "HasClaim").Some?)
  }

  /** The contingency table's index and columns: the distinct values, sorted. */
  function GenderLabels(f: Frame): seq<Value>
  {
    SortedLabels(Present(CellsOf(Paired(f), "Gender")))
  }

  function ClaimLabels(f: Frame): seq<Value>
  {
    SortedLabels(Present(CellsOf(Paired(f), "HasClaim")))
  }

  /** The paired rows with gender `g` and claim flag `h`. */
  function PairCount(rows: seq<Row>, g: Value, h: Value): nat
  {
    |Filter(rows, (r: Row) => Get(r, "Gender") == Some(g) && Get(r, "HasClaim") == Some(h))|
  }

  /** `pd.crosstab(df['Gender'], df['HasClaim'])` as a table of counts. */
  function Contingency(f: Frame): (t: seq<seq<nat>>)
    ensures |t| == |GenderLabels(f)|
    ensures forall i :: 0 <= i < |t| ==> |t[i]| == |ClaimLabels(f)|
  {
    var gl, cl := GenderLabels(f), ClaimLabels(f);
    seq(|gl|, i requires 0 <= i < |gl| =>
      seq(|cl|, j requires 0 <= j < |cl| => PairCount(Paired(f), gl[i], cl[j])))
  }

  /** `contingency.loc[g].sum()` */
  function RowSum(row: seq<nat>): nat
  {
    if |row| == 0 then 0 else row[0] + RowSum(row[1..])
  }

  lemma {:induction false} EntryAtMostRowSum(row: seq<nat>, j: nat)
    requires j < |row|
    ensures row[j] <= RowSum(row)
  {
    if j > 0 {
      EntryAtMostRowSum(row[1..], j - 1);
    }
  }

  /** The claim label `1`. */
  const ClaimLabel: Value := Num(1.0)

  /** A gender in the index has a positive row total: some paired row has that gender, and
      its claim flag is one of the columns. */
  lemma RowTotalPositive(f: Frame, g: Value)
    requires g in GenderLabels(f)
    ensures RowSum(Contingency(f)[IndexOf(GenderLabels(f), g)]) > 0
  {
    var rows := Paired(f);
    var gl, cl := GenderLabels(f), ClaimLabels(f);
    SortedLabelsCorrect(Present(CellsOf(rows, "Gender")));
    SortedLabelsCorrect(Present(CellsOf(rows, "HasClaim")));
    PresentValues(CellsOf(rows, "Gender"), g);
    var k :| 0 <= k < |rows| && CellsOf(rows, "Gender")[k] == Some(g);
    var r := rows[k];
    assert r in rows;
    var h := Get(r, "HasClaim").value;
    PresentValues(CellsOf(rows, "HasClaim"), h);
    assert CellsOf(rows, "HasClaim")[k] == Some(h);
    var j := IndexOf(cl, h);
    FilterKeeps(rows, (r: Row) => Get(r, "Gender") == Some(g) && Get(r, "HasClaim") == Some(h), r);
    var row := Contingency(f)[IndexOf(gl, g)];
    assert row[j] == PairCount(rows, g, h) > 0;
    EntryAtMostRowSum(row, j);
  }

  /** `contingency.loc[g, 1] / contingency.loc[g].sum()` */
  function ClaimRate(f: Frame, g: Value): real
    requires g in GenderLabels(f) && ClaimLabel in ClaimLabels(f)
  {
    var row := Contingency(f)[IndexOf(GenderLabels(f), g)];
    RowTotalPositive(f, g);
    row[IndexOf(ClaimLabels(f), ClaimLabel)] as real / RowSum(row) as real
  }

  /** A claim rate is a proportion: between 0 and 1, and 0 exactly when no paired row of that
      gender has a claim. */
  lemma ClaimRateBounds(f: Frame, g: Value)
    requires g in GenderLabels(f) && ClaimLabel in ClaimLabels(f)
    ensures 0.0 <= ClaimRate(f, g) <= 1.0
    ensures ClaimRate(f, g) == 0.0 <==> PairCount(Paired(f), g, ClaimLabel) == 0
  {
    var row := Contingency(f)[IndexOf(GenderLabels(f), g)];
    var j := IndexOf(ClaimLabels(f), ClaimLabel);
    RowTotalPositive(f, g);
    EntryAtMostRowSum(row, j);
    ProportionBounds(row[j] as real, RowSum(row) as real);
  }

  lemma ProportionBounds(a: real, b: real)
    requires 0.0 <= a <= b && b > 0.0
    ensures 0.0 <= a / b <= 1.0
    ensures a / b == 0.0 <==> a == 0.0
  {
    var q := a / b;
    assert q * b == a;
  }

  /** `((male - female) / female) * 100`: the difference as a percentage of the female
      rate. */
  function PercentageDifference(male: real, female: real): (d: real)
    requires female != 0.0
    ensures d * female == (male - female) * 100.0
  {
    ((male - female) / female) * 100.0
  }

  /** The rate fields from the two rates: the percentage difference exists exactly when the
      female rate is non-zero, and then is the difference relative to it. */
  function RatesFrom(male: real, female: real): (c: ClaimRates)
    ensures c.male == male && c.female == female
    ensures c.percentageDifference.Some? <==> female != 0.0
    ensures c.percentageDifference.Some? ==> c.percentageDifference.value * female == (male - female) * 100.0
  {
    ClaimRates(male, female, if female == 0.0 then None else Some(PercentageDifference(male, female)))
  }

  /** The rate fields: present only when both Male and Female are in the index, and then a
      missing claim label 1 raises; the relative difference is left non-finite when the
      female rate is 0. */
  function ClaimRatesOf(f: Frame): (r: Result<Option<ClaimRates>, Error>)
    ensures r.Failure? <==>
              Str("Male") in GenderLabels(f) && Str("Female") in GenderLabels(f) && ClaimLabel !in ClaimLabels(f)
    ensures r.Failure? ==> r.error == KeyError(ClaimLabel)
    ensures r.Success? && r.value.Some? <==>
              Str("Male") in GenderLabels(f) && Str("Female") in GenderLabels(f) && ClaimLabel in ClaimLabels(f)
    ensures r.Success? && r.value.Some? ==>
              r.value.value == RatesFrom(ClaimRate(f, Str("Male")), ClaimRate(f, Str("Female")))
  {
    var gl := GenderLabels(f);
    if Str("Male") in gl && Str("Female") in gl then
      if ClaimLabel !in ClaimLabels(f) then Failure(KeyError(ClaimLabel))
      else
        Success(Some(RatesFrom(ClaimRate(f, Str("Male")), ClaimRate(f, Str("Female")))))
    else Success(None)
  }

  /** test_4_gender_difference: without a Gender or a HasClaim column nothing happens;
      otherwise the chi-square test always yields a result, with the rate fields when both
      genders appear, unless the claim label 1 is then missing. */
  function GenderTest(f: Frame, stats: Statistics, alpha: real): (r: Outcome)
    ensures "Gender" !in f.columns || "HasClaim" !in f.columns ==> r == Success(None)
    ensures r.Success? && r.value.Some? <==>
              "Gender" in f.columns && "HasClaim" in f.columns && ClaimRatesOf(f).Success?
    ensures r.Success? && r.value.Some? ==>
              && r.value.value.ChiSquareTest? && r.value.value.claimRates == ClaimRatesOf(f).value
              && Decided(r.value.value.decision) && r.value.value.decision.alpha == alpha
  {
    if "Gender" !in f.columns || "HasClaim" !in f.columns then Success(None)
    else
      var t := stats.chi2Contingency(Contingency(f));
      match ClaimRatesOf(f)
      case Failure(e) => Failure(e)
      case Success(rates) => Success(Some(ChiSquareTest(t.statistic, t.dof, Decide(t.pValue, alpha), rates)))
  }

  // ---------------------------------------------------------------------------------------
  // The tester

  /** Every recorded key is one of the three, holds the kind of result its test produces, and
      its decision follows the rule. */
  predicate WellRecorded(results: map<string, TestResult>)
  {
    forall k :: k in results ==>
      && ((k == "hypothesis_1" && results[k].Anova?) ||
          (k == "hypothesis_2_3" && results[k].Welch?) ||
          (k == "hypothesis_4" && results[k].ChiSquareTest?))
      && Decided(results[k].decision)
  }

  /** The result a test returned, if any. */
  function Returned(o: Outcome): Option<TestResult>
  {
    if o.Success? then o.value else None
  }

  /** `self.results[key] = result` when the test produced a result. */
  function Record(results: map<string, TestResult>, key: string, o: Option<TestResult>): map<string, TestResult>
  {
    if o.Some? then results[key := o.value] else results
  }

  /** run_all_tests: tests 1, 2_3 and 4 in that order on the same table, stopping at the
      first exception; the table the tester holds afterwards, its results, and what the call
      returns. */
  function RunAll(f: Frame, stats: Statistics, alpha: real, results: map<string, TestResult>)
    : (Frame, map<string, TestResult>, Result<map<string, TestResult>, Error>)
  {
    var o1 := ProvinceRisk(f, stats, alpha);
    if o1.Failure? then (f, results, Failure(o1.error))
    else
      var r1 := Record(results, "hypothesis_1", o1.value);
      var (g, o2) := DensityTest(f, stats, alpha);
      if o2.Failure? then (g, r1, Failure(o2.error))
      else
        var r2 := Record(r1, "hypothesis_2_3", o2.value);
        var o4 := GenderTest(g, stats, alpha);
        if o4.Failure? then (g, r2, Failure(o4.error))
        else
          var r4 := Record(r2, "hypothesis_4", o4.value);
          (g, r4, Success(r4))
  }

  /** run_all_tests keeps the results well recorded and adds no key but the three; when it
      returns, it returns the results it recorded. */
  lemma RunAllRecords(f: Frame, stats: Statistics, alpha: real, results: map<string, TestResult>)
    requires WellRecorded(results)
    ensures var (_, res, r) := RunAll(f, stats, alpha, results);
            && WellRecorded(res)
            && res.Keys <= results.Keys + {"hypothesis_1", "hypothesis_2_3", "hypothesis_4"}
            && (r.Success? ==> r.value == res)
  {
    var o1 := ProvinceRisk(f, stats, alpha);
    if o1.Success? {
      var r1 := Record(results, "hypothesis_1", o1.value);
      RecordKeeps(results, "hypothesis_1", o1.value);
      var (g, o2) := DensityTest(f, stats, alpha);
      if o2.Success? {
        var r2 := Record(r1, "hypothesis_2_3", o2.value);
        RecordKeeps(r1, "hypothesis_2_3", o2.value);
        var o4 := GenderTest(g, stats, alpha);
        if o4.Success? {
          RecordKeeps(r2, "hypothesis_4", o4.value);
        }
      }
    }
  }

  /** Recording a result of the kind its key holds keeps the results well recorded. */
  lemma RecordKeeps(results: map<string, TestResult>, key: string, o: Option<TestResult>)
    requires WellRecorded(results)
    requires o.Some? ==> Decided(o.value.decision)
    requires o.Some? ==> (key == "hypothesis_1" && o.value.Anova?) ||
                         (key == "hypothesis_2_3" && o.value.Welch?) ||
                         (key == "hypothesis_4" && o.value.ChiSquareTest?)
    ensures WellRecorded(Record(results, key, o))
    ensures Record(results, key, o).Keys == results.Keys + (if o.Some? then {key} else {})
  {
  }

  /** From a fresh tester: the keys are among the three, `hypothesis_1` is recorded exactly
      when test 1 returns a result, and, once tests 1 and 2_3 have not raised,
      `hypothesis_4` is recorded exactly when the table has Gender and HasClaim columns and
      the claim label lookup does not raise. */
  lemma FreshRunKeys(f: Frame, stats: Statistics, alpha: real)
    ensures var (g, res, r) := RunAll(f, stats, alpha, map[]);
            && res.Keys <= {"hypothesis_1", "hypothesis_2_3", "hypothesis_4"}
            && ("hypothesis_1" in res <==> ProvinceRisk(f, stats, alpha).Success? && ProvinceRisk(f, stats, alpha).value.Some?)
            && (ProvinceRisk(f, stats, alpha).Success? ==>
                  ("hypothesis_2_3" in res <==>
                     DensityTest(f, stats, alpha).1.Success? && DensityTest(f, stats, alpha).1.value.Some?))
            && (ProvinceRisk(f, stats, alpha).Success? && DensityTest(f, stats, alpha).1.Success? ==>
                  ("hypothesis_4" in res <==>
                     "Gender" in g.columns && "HasClaim" in g.columns && ClaimRatesOf(g).Success?))
  {
    RunAllRecords(f, stats, alpha, map[]);
  }

  /** The complete tester: the table, the recorded results and the significance level. */
  class CompleteHypothesisTester {
    var df: Frame
    var results: map<string, TestResult>
    var alpha: real
    const stats: Statistics

    predicate Valid()
      reads this
    {
      WellRecorded(results)
    }

    /** `__init__`, the table given in place of the CSV file. */
    constructor (data: Frame, stats: Statistics)
      ensures df == data && this.stats == stats
      ensures results == map[] && alpha == 0.05
      ensures Valid()
    {
      df := data;
      this.stats := stats;
      results := map[];
      alpha := 0.05;
    }

    /** test_1_province_risk */
    method Test1ProvinceRisk() returns (r: Outcome)
      requires Valid()
      modifies this
      ensures Valid()
      ensures df == old(df) && alpha == old(alpha)
      ensures r == ProvinceRisk(df, stats, alpha)
      ensures results == Record(old(results), "hypothesis_1", Returned(r))
    {
      if "Province" !in df.columns {
        return Failure(KeyError(Str("Province")));
      }
      var provinces := Provinces(df);
      var samples: seq<seq<Cell>> := [];
      var i := 0;
      while i < |provinces|
        invariant 0 <= i <= |provinces|
        invariant SamplesOver(df, provinces[..i]) == Success(samples)
      {
        var rows := ProvinceRows(df, provinces[i]);
        assert provinces[..i + 1][..i] == provinces[..i];
        if |rows| >= MinProvinceRows {
          if "LossRatio" !in df.columns {
            SamplesOverFailed(df, provinces, i + 1);
            return Failure(KeyError(Str("LossRatio")));
          }
          var lossRatios := LossRatioSample(rows);
          if |lossRatios| > 0 {
            samples := samples + [lossRatios];
          }
        }
        i := i + 1;
      }
      assert provinces[..i] == provinces;
      if |samples| >= 2 {
        var t := stats.fOneway(samples);
        var result := Anova(t.statistic, Decide(t.pValue, alpha));
        results := results["hypothesis_1" := result];
        return Success(Some(result));
      }
      return Success(None);
    }

    /** test_2_3_zipcode_density */
    method Test23ZipcodeDensity() returns (r: Outcome)
      requires Valid()
      modifies this
      ensures Valid()
      ensures alpha == old(alpha)
      ensures (df, r) == DensityTest(old(df), stats, alpha)
      ensures results == Record(old(results), "hypothesis_2_3", Returned(r))
    {
      if "PostalCode" !in df.columns {
        return Success(None);
      }
      df := WithColumn(df, "HighDensity", HighDensityFlags(df));
      if "LossRatio" !in df.columns {
        return Failure(KeyError(Str("LossRatio")));
      }
      var high := LossRatioSample(HighRows(df));
      var low := LossRatioSample(LowRows(df));
      if |high| > 0 && |low| > 0 {
        var t := stats.ttestInd(high, low);
        var result := Welch(t.statistic, Decide(t.pValue, alpha));
        results := results["hypothesis_2_3" := result];
        return Success(Some(result));
      }
      return Success(None);
    }

    /** test_4_gender_difference */
    method Test4GenderDifference() returns (r: Outcome)
      requires Valid()
      modifies this
      ensures Valid()
      ensures df == old(df) && alpha == old(alpha)
      ensures r == GenderTest(df, stats, alpha)
      ensures results == Record(old(results), "hypothesis_4", Returned(r))
    {
      if "Gender" !in df.columns || "HasClaim" !in df.columns {
        return Success(None);
      }
      var t := stats.chi2Contingency(Contingency(df));
      var rates := ClaimRatesOf(df);
      if rates.Failure? {
        return Failure(rates.error);
      }
      var result := ChiSquareTest(t.statistic, t.dof, Decide(t.pValue, alpha), rates.value);
      results := results["hypothesis_4" := result];
      return Success(Some(result));
    }

    /** run_all_tests, without the JSON file. */
    method RunAllTests() returns (r: Result<map<string, TestResult>, Error>)
      requires Valid()
      modifies this
      ensures Valid()
      ensures alpha == old(alpha)
      ensures (df, results, r) == RunAll(old(df), stats, alpha, old(results))
    {
      var test1 := Test1ProvinceRisk();
      if test1.Failure? {
        return Failure(test1.error);
      }
      var test23 := Test23ZipcodeDensity();
      if test23.Failure? {
        return Failure(test23.error);
      }
      var test4 := Test4GenderDifference();
      if test4.Failure? {
        return Failure(test4.error);
      }
      return Success(results);
    }
  }
}
