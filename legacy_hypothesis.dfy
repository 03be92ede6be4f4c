/** The older hypothesis tester: a one-way ANOVA of loss ratios across the provinces that
    have more than ten rows, decided at the fixed level 0.05. Unlike the complete tester it
    keeps missing loss ratios in the samples and hands scipy whatever groups it found. */
module LegacyHypothesis {
  import opened Wrappers
  import opened Values
  import opened Seqs
  import opened Frames
  import opened ScipyStats

  /** The significance level the older tester uses. */
  const Alpha: real := 0.05

  /** A province takes part when it has strictly more rows than this. */
  const MinGroupRows: nat := 10

  /** The `province_risk` result: the F statistic and the decision. */
  datatype ProvinceResult = ProvinceResult(fStatistic: real, decision: Decision)

  /** `province_data['LossRatio'].values`: every loss-ratio cell of the group, missing ones
      included. */
  function GroupValues(rows: seq<Row>): seq<Cell>
  {
    CellsOf(rows, "LossRatio")
  }

  /** `self.df[self.df['Province'] == province]` */
  function GroupRows(f: Frame, p: Cell): seq<Row>
  {
    RowsWhere(f.rows, "Province", p)
  }

  /** A province with more than ten rows. */
  predicate Large(f: Frame, p: Cell)
  {
    |GroupRows(f, p)| > MinGroupRows
  }

  /** The provinces among `ps` with more than ten rows, in order. */
  function LargeOf(f: Frame, ps: seq<Cell>): seq<Cell>
  {
    Filter(ps, (p: Cell) => Large(f, p))
  }

  /** The loop over `ps`: each province with more than ten rows appends its loss ratios;
      without a LossRatio column such a province raises. */
  function Groups(f: Frame, ps: seq<Cell>): Result<seq<seq<Cell>>, Error>
  {
    if |ps| == 0 then Success([])
    else
      match Groups(f, ps[..|ps| - 1])
      case Failure(e) => Failure(e)
      case Success(acc) =>
        var rows := GroupRows(f, ps[|ps| - 1]);
        if |rows| <= MinGroupRows then Success(acc)
        else if "LossRatio" !in f.columns then Failure(KeyError(Str("LossRatio")))
        else Success(acc + [GroupValues(rows)])
  }

  /** The loss ratios of the given provinces, one group each. */
  function GroupsOf(f: Frame, qs: seq<Cell>): (r: seq<seq<Cell>>)
    ensures |r| == |qs|
    ensures forall i :: 0 <= i < |qs| ==> r[i] == GroupValues(GroupRows(f, qs[i]))
  {
    seq(|qs|, i requires 0 <= i < |qs| => GroupValues(GroupRows(f, qs[i])))
  }

  /** With a LossRatio column the loop collects exactly the loss ratios of the provinces with
      more than ten rows, in order, each group as long as the province's row count. */
  lemma {:induction false} GroupsLarge(f: Frame, ps: seq<Cell>)
    requires "LossRatio" in f.columns
    ensures Groups(f, ps) == Success(GroupsOf(f, LargeOf(f, ps)))
  {
    if |ps| > 0 {
      var p, x := ps[..|ps| - 1], ps[|ps| - 1];
      GroupsLarge(f, p);
      assert ps == p + [x];
      FilterSnoc(p, x, (q: Cell) => Large(f, q));
      var qs := LargeOf(f, p);
      if Large(f, x) {
        assert GroupsOf(f, qs + [x]) == GroupsOf(f, qs) + [GroupValues(GroupRows(f, x))];
      } else {
        assert LargeOf(f, ps) == qs + [] == qs;
      }
    }
  }

  /** Without a LossRatio column the loop raises exactly when some province has more than
      ten rows, and otherwise collects nothing. */
  lemma {:induction false} GroupsNoLossRatio(f: Frame, ps: seq<Cell>)
    requires "LossRatio" !in f.columns
    ensures Groups(f, ps) ==
              if exists i :: 0 <= i < |ps| && Large(f, ps[i])
              then Failure(KeyError(Str("LossRatio"))) else Success([])
  {
    if |ps| > 0 {
      var p := ps[..|ps| - 1];
      GroupsNoLossRatio(f, p);
      if exists i :: 0 <= i < |p| && Large(f, p[i]) {
        var i :| 0 <= i < |p| && Large(f, p[i]);
        assert ps[i] == p[i];
      }
      if exists i :: 0 <= i < |ps| && Large(f, ps[i]) {
        var i :| 0 <= i < |ps| && Large(f, ps[i]);
        if i < |p| {
          assert ps[i] == p[i];
        }
      }
    }
  }

  /** A loop that has raised stays raised. */
  lemma {:induction false} GroupsFailed(f: Frame, ps: seq<Cell>, i: nat)
    requires i <= |ps| && Groups(f, ps[..i]).Failure?
    ensures Groups(f, ps) == Groups(f, ps[..i])
    decreases |ps| - i
  {
    if i < |ps| {
      assert ps[..i + 1][..i] == ps[..i];
      GroupsFailed(f, ps, i + 1);
    } else {
      assert ps[..i] == ps;
    }
  }

  /** test_province_risk: a KeyError without a Province column or, when some province is
      large, without a LossRatio column; scipy's error when fewer than two provinces are
      large; otherwise the ANOVA over their loss ratios. */
  function ProvinceTest(f: Frame, stats: Statistics): (r: Result<ProvinceResult, Error>)
    ensures "Province" !in f.columns ==> r == Failure(KeyError(Str("Province")))
    ensures r.Success? ==> Decided(r.value.decision) && r.value.decision.alpha == Alpha
  {
    if "Province" !in f.columns then Failure(KeyError(Str("Province")))
    else
      match Groups(f, Distinct(Column(f, "Province")))
      case Failure(e) => Failure(e)
      case Success(groups) =>
        if |groups| < 2 then Failure(TooFewSamples(|groups|))
        else
          var t := stats.fOneway(groups);
          Success(ProvinceResult(t.statistic, Decide(t.pValue, Alpha)))
  }

  /** With both columns the test succeeds exactly when at least two provinces have more
      than ten rows, raises scipy's error naming how many did otherwise, and on success
      passes scipy those provinces' loss ratios, missing cells included. */
  lemma ProvinceTestCases(f: Frame, stats: Statistics)
    requires "Province" in f.columns && "LossRatio" in f.columns
    ensures var large := LargeOf(f, Distinct(Column(f, "Province")));
            var groups := GroupsOf(f, large);
            && (ProvinceTest(f, stats).Success? <==> |large| >= 2)
            && (|large| < 2 ==> ProvinceTest(f, stats) == Failure(TooFewSamples(|large|)))
            && (|large| >= 2 ==>
                  ProvinceTest(f, stats).value.fStatistic == stats.fOneway(groups).statistic &&
                  ProvinceTest(f, stats).value.decision == Decide(stats.fOneway(groups).pValue, Alpha))
            && forall i :: 0 <= i < |groups| ==> |groups[i]| == |GroupRows(f, large[i])| > MinGroupRows
  {
    var large := LargeOf(f, Distinct(Column(f, "Province")));
    GroupsLarge(f, Distinct(Column(f, "Province")));
    forall i | 0 <= i < |large| ensures |GroupRows(f, large[i])| > MinGroupRows {
      assert large[i] in large;
    }
  }

  /** Without a LossRatio column the test raises a KeyError for it as soon as one province
      has more than ten rows, and scipy's error over no groups otherwise. */
  lemma ProvinceTestNoLossRatio(f: Frame, stats: Statistics)
    requires "Province" in f.columns && "LossRatio" !in f.columns
    ensures ProvinceTest(f, stats) ==
              if exists p :: p in Column(f, "Province") && Large(f, p)
              then Failure(KeyError(Str("LossRatio"))) else Failure(TooFewSamples(0))
  {
    var ps := Distinct(Column(f, "Province"));
    GroupsNoLossRatio(f, ps);
    DistinctSameElements(Column(f, "Province"));
    if exists p :: p in Column(f, "Province") && Large(f, p) {
      var p :| p in Column(f, "Province") && Large(f, p);
      assert p in ps;
      var i :| 0 <= i < |ps| && ps[i] == p;
      assert Groups(f, ps) == Failure(KeyError(Str("LossRatio")));
    } else {
      var none: seq<seq<Cell>> := [];
      assert forall i :: 0 <= i < |ps| ==> !Large(f, ps[i]) by {
        forall i | 0 <= i < |ps| ensures !Large(f, ps[i]) {
          assert ps[i] in ps;
        }
      }
      assert Groups(f, ps) == Success(none);
    }
  }

  /** run_all_tests, without the JSON file: test 1 is recorded under `province_risk` and
      the results are returned, or its exception propagates. */
  function RunAll(f: Frame, stats: Statistics, results: map<string, ProvinceResult>)
    : (map<string, ProvinceResult>, Result<map<string, ProvinceResult>, Error>)
  {
    match ProvinceTest(f, stats)
    case Failure(e) => (results, Failure(e))
    case Success(t) => (results["province_risk" := t], Success(results["province_risk" := t]))
  }

  /** From a fresh tester, run_all_tests either raises, recording nothing, or returns
      results whose only key is `province_risk`, holding test 1's result. */
  lemma FreshRunKeys(f: Frame, stats: Statistics)
    ensures var (res, r) := RunAll(f, stats, map[]);
            && (r.Failure? <==> ProvinceTest(f, stats).Failure?)
            && (r.Failure? ==> res == map[])
            && (r.Success? ==> r.value == res && res.Keys == {"province_risk"} &&
                               res["province_risk"] == ProvinceTest(f, stats).value &&
                               Decided(res["province_risk"].decision))
  {
  }

  /** `HypothesisTester`: the table and the recorded results. */
  class HypothesisTester {
    var df: Frame
    var results: map<string, ProvinceResult>
    const stats: Statistics

    /** `__init__`, the table given in place of the CSV file. */
    constructor (data: Frame, stats: Statistics)
      ensures df == data && this.stats == stats && results == map[]
    {
      df := data;
      this.stats := stats;
      results := map[];
    }

    /** test_province_risk */
    method TestProvinceRisk() returns (r: Result<ProvinceResult, Error>)
      modifies this
      ensures df == old(df)
      ensures r == ProvinceTest(df, stats)
      ensures results == if r.Success? then old(results)["province_risk" := r.value] else old(results)
    {
      if "Province" !in df.columns {
        return Failure(KeyError(Str("Province")));
      }
      var provinces := Distinct(Column(df, "Province"));
      var lossRatios: seq<seq<Cell>> := [];
      var i := 0;
      while i < |provinces|
        invariant 0 <= i <= |provinces|
        invariant Groups(df, provinces[..i]) == Success(lossRatios)
      {
        var provinceData := GroupRows(df, provinces[i]);
        assert provinces[..i + 1][..i] == provinces[..i];
        if |provinceData| > MinGroupRows {
          if "LossRatio" !in df.columns {
            GroupsFailed(df, provinces, i + 1);
            return Failure(KeyError(Str("LossRatio")));
          }
          lossRatios := lossRatios + [GroupValues(provinceData)];
        }
        i := i + 1;
      }
      assert provinces[..i] == provinces;
      if |lossRatios| < 2 {
        return Failure(TooFewSamples(|lossRatios|));
      }
      var t := stats.fOneway(lossRatios);
      var result := ProvinceResult(t.statistic, Decide(t.pValue, Alpha));
      results := results["province_risk" := result];
      return Success(result);
    }

    /** run_all_tests, without the printout and the JSON file. */
    method RunAllTests() returns (r: Result<map<string, ProvinceResult>, Error>)
      modifies this
      ensures df == old(df)
      ensures (results, r) == RunAll(df, stats, old(results))
    {
      var test1 := TestProvinceRisk();
      if test1.Failure? {
        return Failure(test1.error);
      }
      return Success(results);
    }
  }
}
