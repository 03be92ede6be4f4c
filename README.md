# Insurance risk analytics: a verified model of the core logic

This project models, in Dafny, the decision logic of an insurance analytics code base.

- **The two hypothesis testers.** `CompleteHypothesisTester` runs three tests on one table:
  - a one-way ANOVA of loss ratios across provinces;
  - a Welch t-test of loss ratios between high- and low-density postal codes;
  - a chi-square test of claims against gender, with the male and female claim rates.

  The older `HypothesisTester` runs only the province ANOVA.
- **The two preprocessing scripts.** The notebook pipeline derives LossRatio, HasClaim and VehicleAge. It then drops duplicate rows, fills missing values with medians and modes, and builds the metrics report. The feature script fills medians, adds a zero-guarded loss ratio and a previous-claims indicator, and adds integer category codes.
- **The premium optimizer.** It multiplies lookup-table risk factors and caps the resulting claim probability at 0.95. It then applies the expense and profit loading and recommends an increase or a decrease.

A table is a `Frame`: a header of column names plus a sequence of rows. Each row maps a column name to a cell. A cell is either missing (`None`, which is pandas' NaN) or `Some` value. A value is a number (`real`), a string or a boolean. Where the source changes a DataFrame in place, the model uses the class `Frames.DataFrame`. Its methods are proved equal to functions on `Frame` values, and the properties are proved about those functions. Each tester is a class holding its table, its result map and its significance level.

The scipy routines `f_oneway`, `ttest_ind` and `chi2_contingency` are not modelled. A tester receives them as function-valued fields of a `Statistics` value. Every property holds whatever those routines return. The same goes for the clock year (`pd.Timestamp.now().year`) and the model's predicted severity (`claim_model.predict`): each is a parameter.

Exceptions the source raises are modelled as `Failure` values rather than excluded by preconditions:
- a missing Province or LossRatio column is a `KeyError`;
- a missing claim label `1` in the contingency table is a `KeyError`;
- the older tester's ANOVA over fewer than two groups is scipy's error;
- a non-numeric reported column in `save_metrics` is an error;
- a zero current premium in the optimizer is modelled as `Failure(ZeroDivision)`, although numpy returns an infinity or NaN there without raising (see "## Left out").

Modules:

| file | module | models |
|---|---|---|
| wrappers.dfy | Wrappers | Option and Result |
| values.dfy | Values | cell values and the order pandas sorts labels in |
| seqs.dfy | Seqs | first-appearance de-duplication (`unique`, `drop_duplicates`), filtering, counting |
| aggregates.dfy | Aggregates | sort, median, mean, sum, mode |
| frames.dfy | Frames | tables, column selection and assignment, `dropna`, `fillna`, dtypes |
| missing_values.dfy | MissingValues | the median and mode filling loops both scripts share |
| metrics_preprocess.dfy | MetricsPreprocess | notebooks/src/data/preprocess.py |
| feature_preprocess.dfy | FeaturePreprocess | src/data/preprocess.py |
| premium.dfy | PremiumOptimizer | notebooks/src/models/premium_optimizer.py |
| scipy_stats.dfy | ScipyStats | the statistics interface and the reject/conclusion rule |
| complete_hypothesis.dfy | CompleteHypothesis | notebooks/src/analysis/hypothesis_complete.py |
| legacy_hypothesis.dfy | LegacyHypothesis | notebooks/src/analysis/hypothesis.py |

## Model

| member | source | states |
|---|---|---|
| Seqs.DistinctFirstAppearance | notebooks/src/analysis/hypothesis_complete.py:30 | `unique()` keeps exactly the values of its input, each at its first occurrence, in the order of first appearance |
| Seqs.DistinctShrinksIffDuplicates | notebooks/src/data/preprocess.py:48-49 | de-duplication keeps the length iff there are no duplicates, and is the identity then |
| Values.SortedLabelsCorrect | src/data/preprocess.py:40 | the sorted label list is strictly sorted, has no repeats, and holds exactly the input's values |
| Aggregates.MedianBalanced | notebooks/src/data/preprocess.py:62 | at most half the values lie strictly above the median, and at most half strictly below |
| Aggregates.MedianWithinRange | notebooks/src/data/preprocess.py:62 | the median lies between the smallest and the largest value |
| Aggregates.MedianOfConstant | src/data/preprocess.py:27 | the median of a constant column is that constant |
| Aggregates.MeanWithin | notebooks/src/data/preprocess.py:87-88 | the mean of values within bounds lies within them |
| Aggregates.ModeIsSmallestMostFrequent | notebooks/src/data/preprocess.py:69 | `mode()[0]` occurs in the data, occurs at least as often as any value, and is the smallest among those tied |
| Frames.WithColumn | notebooks/src/data/preprocess.py:29-30 | assigning a column replaces that column's cells, appends the name only when it is new, and leaves every other cell unchanged |
| Frames.WithColumnWellFormed | notebooks/src/data/preprocess.py:29-36 | column assignment keeps every row in step with the header |
| Frames.Indicator | notebooks/src/data/preprocess.py:30 | `(x > 0).astype(int)` is never missing, and is 1 iff the cell holds a number greater than 0 |
| Frames.DataFrame.SetColumn | notebooks/src/data/preprocess.py:29 | assigning a column in place leaves the table `WithColumn` describes |
| MissingValues.FillModes | notebooks/src/data/preprocess.py:66-70 | the mode loop keeps the header, the row count and every present cell |
| MissingValues.FillMediansCells | notebooks/src/data/preprocess.py:59-63 | after the median loop over distinct columns, a missing cell of a listed column holds that column's median and every other cell is unchanged |
| MissingValues.FillModesCells | notebooks/src/data/preprocess.py:66-70 | after the mode loop over distinct columns, a missing cell of a listed column holds that column's mode and every other cell is unchanged |
| MissingValues.FillMediansInPlace | notebooks/src/data/preprocess.py:60-63 | the in-place median loop leaves the table the fold `FillMedians` describes |
| MissingValues.FillModesInPlace | notebooks/src/data/preprocess.py:67-70 | the in-place mode loop leaves the table the fold `FillModes` describes |
| MetricsPreprocess.Ratio | notebooks/src/data/preprocess.py:29 | the loss ratio is missing iff an operand is missing, and otherwise times the premium gives back the claims |
| MetricsPreprocess.Age | notebooks/src/data/preprocess.py:36 | the vehicle age is missing iff the year is missing, and otherwise plus the year gives the current year |
| MetricsPreprocess.LossRatios | notebooks/src/data/preprocess.py:29 | the LossRatio column is the row-by-row ratio |
| MetricsPreprocess.VehicleAges | notebooks/src/data/preprocess.py:34-36 | the VehicleAge column is the row-by-row age |
| MetricsPreprocess.CalculateBusinessMetrics | notebooks/src/data/preprocess.py:23-39 | the in-place method leaves the table `BusinessMetrics` describes |
| MetricsPreprocess.BusinessMetricsCells | notebooks/src/data/preprocess.py:27-38 | cell by cell: LossRatio and HasClaim are derived iff both TotalClaims and TotalPremium exist; VehicleAge is derived iff it is absent and Year exists; every other cell is unchanged |
| MetricsPreprocess.BusinessMetricsWellFormed | notebooks/src/data/preprocess.py:28-36 | the derivation keeps the table well formed, only adds columns, and adds LossRatio and HasClaim when both source columns exist |
| MetricsPreprocess.DuplicatesRemoved | notebooks/src/data/preprocess.py:45-49 | `duplicates_removed` is never negative, and is 0 iff no two rows are equal |
| MetricsPreprocess.DropDuplicatesCorrect | notebooks/src/data/preprocess.py:48 | after `drop_duplicates` no two rows are equal; the same rows remain; they keep their first-appearance order; the header is kept |
| MetricsPreprocess.CleanData | notebooks/src/data/preprocess.py:41-74 | clean_data yields a new table equal to `CleanedFrame` of the input |
| MetricsPreprocess.CleanedFrameCells | notebooks/src/data/preprocess.py:47-70 | the header is kept, with one row per distinct input row; after de-duplication, a missing numeric cell holds its column's median and a missing object cell its column's mode; every other cell is unchanged |
| MetricsPreprocess.FirstNotNumeric | notebooks/src/data/preprocess.py:87-90 | finds a present reported column that is not numeric iff one exists |
| MetricsPreprocess.MeanReading | notebooks/src/data/preprocess.py:87-88 | a mean is `None` iff the column is absent, and NaN iff the column holds no number; otherwise it is the mean of the column's numbers (times their count it gives their sum) |
| MetricsPreprocess.SumReading | notebooks/src/data/preprocess.py:89-90 | a sum is `None` iff the column is absent, is never NaN, and otherwise is the sum of the column's numbers |
| MetricsPreprocess.SaveMetrics | notebooks/src/data/preprocess.py:76-92 | the report as written: it fails iff a reported column is not numeric; otherwise it reports 0 duplicates, the same original and final row counts (the cleaned table's), and the column count, with the mean of LossRatio, the mean of HasClaim and the sums of TotalPremium and TotalClaims as the business figures |
| MetricsPreprocess.IntendedMetrics | notebooks/src/data/preprocess.py:78-83 | the intended report: original rows = final rows + duplicates removed; 0 duplicates iff no two input rows are equal |
| MetricsPreprocess.MetricsDifferOnlyInDuplicates | notebooks/src/data/preprocess.py:80-82 | the written and the intended reports agree on everything except the original-row and duplicate counts, and are equal iff the input had no duplicate rows |
| MetricsPreprocess.DuplicatesNotReported | notebooks/src/data/preprocess.py:81 | two equal rows: the written report says 1 row and 0 duplicates; the intended one says 2 rows and 1 duplicate |
| MetricsPreprocess.BusinessMetricsReported | notebooks/src/data/preprocess.py:28-30 | after the derivation, the reported columns hold numbers or nothing, and HasClaim holds only 0 and 1 |
| MetricsPreprocess.CleaningKeepsReportedCells | notebooks/src/data/preprocess.py:48-70 | cleaning keeps the reported cells sound and the header unchanged, and empties the table only if it was empty |
| MetricsPreprocess.SoundClaimFrequency | notebooks/src/data/preprocess.py:88 | on such a table the report is written; its claim frequency is NaN iff there are no rows, and otherwise lies in [0, 1] |
| MetricsPreprocess.CleanedClaimFrequency | notebooks/src/data/preprocess.py:88 | the same holds after cleaning |
| MetricsPreprocess.PipelineClaimFrequency | notebooks/src/data/preprocess.py:125-134 | derivation then cleaning then report: the report is written, and the claim frequency is NaN iff the raw table is empty, and otherwise lies in [0, 1] |
| MetricsPreprocess.Preprocess | notebooks/src/data/preprocess.py:124-134 | main after loading: the derivation happens in place; the cleaned table is new; the metrics are its report, and are written whenever TotalClaims and TotalPremium exist |
| FeaturePreprocess.GuardedRatio | src/data/preprocess.py:31 | the guarded ratio is missing iff an operand is missing; otherwise, times a non-zero premium it gives back the claims, and with a zero premium it equals the claims |
| FeaturePreprocess.GuardedRatios | src/data/preprocess.py:30-31 | the loss_ratio column is the row-by-row guarded ratio |
| FeaturePreprocess.CategoriesCorrect | src/data/preprocess.py:40 | the categories are strictly sorted, have no repeats, and are exactly the values some cell holds |
| FeaturePreprocess.Codes | src/data/preprocess.py:40 | the code column has one code per cell |
| FeaturePreprocess.CodeOfCell | src/data/preprocess.py:40 | a code is -1 iff the cell is missing; otherwise it is the position of the cell's value among the categories |
| FeaturePreprocess.CodesEqual | src/data/preprocess.py:40 | two cells get equal codes iff they are equal |
| FeaturePreprocess.CodesOrdered | src/data/preprocess.py:40 | codes of present cells are ordered as their values are |
| FeaturePreprocess.CodeNames | src/data/preprocess.py:40 | `f'{col}_code'` is injective, and never names loss_ratio or has_previous_claims |
| FeaturePreprocess.AddCodes | src/data/preprocess.py:37-40 | the encoding loop keeps the row count and every column |
| FeaturePreprocess.AddCodesCells | src/data/preprocess.py:37-40 | when no code name the loop writes is an existing column or a listed column, and the listed columns are distinct: after the encoding loop, existing cells are unchanged and each `c_code` column holds the codes of column c |
| FeaturePreprocess.AddCodesInPlace | src/data/preprocess.py:38-40 | the in-place encoding loop leaves the table `AddCodes` describes |
| MissingValues.FillMediansKeepsNumeric | src/data/preprocess.py:24-27 | median filling keeps a numeric column numeric |
| FeaturePreprocess.MedianFilled | src/data/preprocess.py:24-27 | the median loop keeps the header and the row count |
| FeaturePreprocess.MedianFilledFeaturable | src/data/preprocess.py:24-34 | after median filling, the derived columns can still be computed |
| FeaturePreprocess.MedianFilledCells | src/data/preprocess.py:24-27 | a missing numeric cell holds its column's median after filling; every other cell is unchanged |
| FeaturePreprocess.DerivedCells | src/data/preprocess.py:29-34 | loss_ratio is the guarded ratio when premium and total_claims exist; has_previous_claims is the indicator when previous_claims exists; every other cell is the median-filled one |
| FeaturePreprocess.DerivedHeader | src/data/preprocess.py:29-37 | the derived header has no repeats, keeps every input column and adds only loss_ratio and has_previous_claims; every object column after derivation is an input column |
| FeaturePreprocess.CleanData | src/data/preprocess.py:21-42 | the in-place clean_data leaves the table `FeatureFrame` describes |
| FeaturePreprocess.FeatureFrameCells | src/data/preprocess.py:21-42 | when the header has no repeats and no input column is named like another input column's `_code` column: clean_data keeps the row count and every cell of the derived table (the median-filled input columns, loss_ratio and has_previous_claims), and each object column of the derived table gets a `_code` column holding its codes |
| PremiumOptimizer.RiskMultiplier | notebooks/src/models/premium_optimizer.py:27-47 | a policy with none of the three fields has multiplier 1; with non-negative previous claims the multiplier lies between 0.8 x 0.9 and 1.3 x 1.2 times the previous-claims factor |
| PremiumOptimizer.EstimatedProbability | notebooks/src/models/premium_optimizer.py:49 | the probability is the smaller of 0.95 and 0.7 times the risk multiplier |
| PremiumOptimizer.OptimizePremium | notebooks/src/models/premium_optimizer.py:20-65 | fails iff the current premium is 0; otherwise it echoes the current premium and the severity; optimized = probability x severity x 1.45; INCREASE iff optimized > current; adjustment x current = (optimized - current) x 100 |
| PremiumOptimizer.AdjustmentSign | notebooks/src/models/premium_optimizer.py:63-64 | for a positive current premium, the adjustment is positive iff the recommendation is INCREASE, and 0 iff optimized equals current |
| PremiumOptimizer.AdjustmentSignNegative | notebooks/src/models/premium_optimizer.py:63-64 | for a negative current premium, the adjustment is positive iff optimized is below current |
| PremiumOptimizer.ProbabilityPositive | notebooks/src/models/premium_optimizer.py:24-49 | with non-negative previous claims, the probability lies in (0, 0.95] |
| PremiumOptimizer.ProbabilityMonotone | notebooks/src/models/premium_optimizer.py:45-49 | more previous claims never lower the probability |
| PremiumOptimizer.OptimizedBounds | notebooks/src/models/premium_optimizer.py:49-56 | for non-negative severity, the optimized premium lies between 0 and 0.95 x severity x 1.45 |
| PremiumOptimizer.HighRiskIsCapped | notebooks/src/models/premium_optimizer.py:29-49 | a Gauteng SUV with one previous claim hits the 0.95 cap |
| ScipyStats.Decide | notebooks/src/analysis/hypothesis_complete.py:50-51 | reject iff p < alpha (strict), and the conclusion is REJECT iff reject, FAIL TO REJECT otherwise |
| CompleteHypothesis.SamplesOf | notebooks/src/analysis/hypothesis_complete.py:36 | one non-missing loss-ratio sample per given province |
| CompleteHypothesis.SamplesOverQualifying | notebooks/src/analysis/hypothesis_complete.py:33-38 | with a LossRatio column, the loop collects exactly the qualifying provinces' samples, in order |
| CompleteHypothesis.SamplesOverNoLossRatio | notebooks/src/analysis/hypothesis_complete.py:33-36 | without a LossRatio column, the loop raises a KeyError iff some province has at least 10 rows |
| CompleteHypothesis.ProvinceRisk | notebooks/src/analysis/hypothesis_complete.py:21-62 | a KeyError without a Province column; any result is an ANOVA decided at the tester's alpha |
| CompleteHypothesis.ProvinceSelection | notebooks/src/analysis/hypothesis_complete.py:30-62 | a province takes part iff it has at least 10 rows and a non-missing loss ratio; the groups keep first-appearance order and hold only present values; the ANOVA runs iff at least 2 groups take part, otherwise the result is None |
| CompleteHypothesis.HighDensityFlags | notebooks/src/analysis/hypothesis_complete.py:83 | one boolean flag per row, never missing |
| CompleteHypothesis.HighDensityIff | notebooks/src/analysis/hypothesis_complete.py:77-83 | a row is high-density iff its postal code occurs strictly more often than the median code count |
| CompleteHypothesis.DensityPartition | notebooks/src/analysis/hypothesis_complete.py:80-87 | the high and low code lists partition the codes, and the high and low rows partition the rows |
| CompleteHypothesis.AtMostHalfDense | notebooks/src/analysis/hypothesis_complete.py:77-80 | at most half the postal codes are high-density |
| CompleteHypothesis.UniformCountsNoneDense | notebooks/src/analysis/hypothesis_complete.py:77-80 | when every code has the same count, no code is high-density |
| CompleteHypothesis.NoDenseCodesNoHighRows | notebooks/src/analysis/hypothesis_complete.py:83-86 | with no high-density code, no row is selected as high-density |
| CompleteHypothesis.UniformCountsSkip | notebooks/src/analysis/hypothesis_complete.py:77-110 | when every code has the same count, the test adds the flag column and returns None |
| CompleteHypothesis.DensityTest | notebooks/src/analysis/hypothesis_complete.py:64-110 | without PostalCode the table is unchanged and the result is None; otherwise the HighDensity column is added; any result is a Welch test decided at the tester's alpha |
| CompleteHypothesis.DensitySelection | notebooks/src/analysis/hypothesis_complete.py:83-110 | with PostalCode: a KeyError without LossRatio; otherwise Welch's test on the non-missing loss ratios of the flagged and unflagged rows iff both are non-empty, and no result otherwise; both samples hold present cells only |
| CompleteHypothesis.DensitySides | notebooks/src/analysis/hypothesis_complete.py:83-87 | a row is on the high side iff its postal code is dense and on the low side otherwise, and its present loss ratio joins that side's sample |
| CompleteHypothesis.DensitySampleOrigin | notebooks/src/analysis/hypothesis_complete.py:86-87 | every cell of a side's sample is the present loss ratio of some row on that side |
| CompleteHypothesis.Contingency | notebooks/src/analysis/hypothesis_complete.py:125 | the crosstab has one row per gender label and one column per claim label |
| CompleteHypothesis.RowTotalPositive | notebooks/src/analysis/hypothesis_complete.py:148-149 | every gender in the index has a positive row total, so the rate's division is defined |
| CompleteHypothesis.ClaimRateBounds | notebooks/src/analysis/hypothesis_complete.py:148-149 | a claim rate lies in [0, 1], and is 0 iff no row of that gender has a claim |
| CompleteHypothesis.PercentageDifference | notebooks/src/analysis/hypothesis_complete.py:150 | difference x female = (male - female) x 100 |
| CompleteHypothesis.RatesFrom | notebooks/src/analysis/hypothesis_complete.py:150-154 | the rates are echoed, and the percentage difference is defined iff the female rate is non-zero |
| CompleteHypothesis.ClaimRatesOf | notebooks/src/analysis/hypothesis_complete.py:147-154 | a KeyError iff both Male and Female are present but label 1 is not; rates iff both genders and the label are present, computed from the two claim rates |
| CompleteHypothesis.GenderTest | notebooks/src/analysis/hypothesis_complete.py:112-161 | without a Gender or a HasClaim column the test is skipped and returns nothing; otherwise a result iff both columns exist and the rate lookup does not raise; it is a chi-square test carrying those rates, decided at the tester's alpha |
| CompleteHypothesis.RecordKeeps | notebooks/src/analysis/hypothesis_complete.py:59-60 | recording a result under its own key keeps the results well formed and adds just that key |
| CompleteHypothesis.RunAllRecords | notebooks/src/analysis/hypothesis_complete.py:163-182 | run_all_tests keeps the results well formed, adds no key but the three test keys, and returns the results it recorded |
| CompleteHypothesis.FreshRunKeys | notebooks/src/analysis/hypothesis_complete.py:163-182 | from a fresh tester, the keys are among the three; hypothesis_1 is present iff test 1 returned a result; once test 1 has not raised, hypothesis_2_3 is present iff test 2_3 returned a result; once tests 1 and 2_3 have not raised, hypothesis_4 is present iff Gender and HasClaim exist and the rate lookup does not raise |
| CompleteHypothesis.CompleteHypothesisTester.constructor | notebooks/src/analysis/hypothesis_complete.py:16-19 | the tester starts with the given table, no results and alpha 0.05 |
| CompleteHypothesis.CompleteHypothesisTester.Test1ProvinceRisk | notebooks/src/analysis/hypothesis_complete.py:21-62 | the loop's result is `ProvinceRisk`; hypothesis_1 is recorded iff a result is returned; the table is unchanged |
| CompleteHypothesis.CompleteHypothesisTester.Test23ZipcodeDensity | notebooks/src/analysis/hypothesis_complete.py:64-110 | the new table and the result are `DensityTest`'s; hypothesis_2_3 is recorded iff a result is returned |
| CompleteHypothesis.CompleteHypothesisTester.Test4GenderDifference | notebooks/src/analysis/hypothesis_complete.py:112-161 | the result is `GenderTest`'s; hypothesis_4 is recorded iff a result is returned |
| CompleteHypothesis.CompleteHypothesisTester.RunAllTests | notebooks/src/analysis/hypothesis_complete.py:163-182 | the table, the results and the return value are `RunAll`'s |
| LegacyHypothesis.GroupsOf | notebooks/src/analysis/hypothesis.py:30 | one group per given province, holding its raw loss-ratio cells |
| LegacyHypothesis.GroupsLarge | notebooks/src/analysis/hypothesis.py:27-30 | with a LossRatio column, the loop collects the loss ratios of exactly the provinces with more than 10 rows, in order |
| LegacyHypothesis.GroupsNoLossRatio | notebooks/src/analysis/hypothesis.py:27-30 | without a LossRatio column, the loop raises a KeyError iff some province has more than 10 rows |
| LegacyHypothesis.ProvinceTest | notebooks/src/analysis/hypothesis.py:17-44 | a KeyError without a Province column; any result is decided at 0.05 |
| LegacyHypothesis.ProvinceTestCases | notebooks/src/analysis/hypothesis.py:24-40 | the test succeeds iff at least 2 provinces have more than 10 rows; with fewer, scipy's error names how many; each group keeps all of its province's cells, missing ones included |
| LegacyHypothesis.ProvinceTestNoLossRatio | notebooks/src/analysis/hypothesis.py:27-33 | without a LossRatio column, a KeyError if some province has more than 10 rows, scipy's error over no groups otherwise |
| LegacyHypothesis.FreshRunKeys | notebooks/src/analysis/hypothesis.py:46-58 | from a fresh tester, run_all_tests raises iff the test raises, recording nothing; otherwise the only key is province_risk, holding the test's decided result |
| LegacyHypothesis.HypothesisTester.constructor | notebooks/src/analysis/hypothesis.py:13-15 | the tester starts with the given table and no results |
| LegacyHypothesis.HypothesisTester.TestProvinceRisk | notebooks/src/analysis/hypothesis.py:17-44 | the loop's result is `ProvinceTest`; province_risk is recorded iff it succeeds; the table is unchanged |
| LegacyHypothesis.HypothesisTester.RunAllTests | notebooks/src/analysis/hypothesis.py:46-58 | the results and the return value are `RunAll`'s |

Some specification functions carry no contract of their own; the rows above that state
their properties are:
- CompleteHypothesis.RunAll (notebooks/src/analysis/hypothesis_complete.py:163-182): `CompleteHypothesis.RunAllRecords`, `CompleteHypothesis.FreshRunKeys` and `CompleteHypothesis.CompleteHypothesisTester.RunAllTests`.
- LegacyHypothesis.RunAll (notebooks/src/analysis/hypothesis.py:46-58): `LegacyHypothesis.FreshRunKeys` and `LegacyHypothesis.HypothesisTester.RunAllTests`.
- MetricsPreprocess.BusinessMetrics (notebooks/src/data/preprocess.py:23-39): `MetricsPreprocess.BusinessMetricsCells`, `MetricsPreprocess.BusinessMetricsWellFormed` and `MetricsPreprocess.CalculateBusinessMetrics`.
- MetricsPreprocess.CleanedFrame (notebooks/src/data/preprocess.py:41-74): `MetricsPreprocess.CleanedFrameCells`, `MetricsPreprocess.DropDuplicatesCorrect` and `MetricsPreprocess.CleanData`.
- FeaturePreprocess.FeatureFrame (src/data/preprocess.py:21-42): `FeaturePreprocess.FeatureFrameCells`, `FeaturePreprocess.DerivedCells`, `FeaturePreprocess.DerivedHeader` and `FeaturePreprocess.CleanData`.
- CompleteHypothesis.SamplesOver (notebooks/src/analysis/hypothesis_complete.py:33-38): `CompleteHypothesis.SamplesOverQualifying` and `CompleteHypothesis.SamplesOverNoLossRatio`.
- LegacyHypothesis.Groups (notebooks/src/analysis/hypothesis.py:27-30): `LegacyHypothesis.GroupsLarge` and `LegacyHypothesis.GroupsNoLossRatio`.

## Left out

- Reading CSV files is left out. So are writing JSON and CSV files, `mkdir`, logging and printing. These are I/O; the testers receive their table as a value.
- The JSON write at the end of run_all_tests is left out together with its failure modes. `reject_null` is `p_value < alpha` on a numpy float, so it is a `numpy.bool_`, which `json.dump` rejects with a TypeError; the older tester also opens `reports/` without creating it. The program's run_all_tests therefore very likely raises whenever a result was recorded. `CompleteHypothesis.RunAll` and `LegacyHypothesis.RunAll` describe the run up to that write: the recorded results they return are what would be written, not what the program returns.
- `memory_usage_mb` in the metrics report is left out. It depends on pandas' memory layout.
- The scipy statistics are parameters, and nothing is proved about their values.
- `claim_model.predict` and the clock year are parameters.
- Floating point is left out: numbers are reals, so there is no rounding, no infinity and no NaN arithmetic. A missing cell stands for NaN, and no NaN can arise from arithmetic.
- MetricsPreprocess.Derivable: the notebook LossRatio requires numeric TotalClaims and TotalPremium columns, a non-zero premium wherever both operands are present, and a numeric Year column. pandas raises a TypeError for text in TotalClaims, TotalPremium or Year; a zero premium gives an infinity, or NaN when the claims are 0 too, which the model does not represent. Boolean TotalClaims, TotalPremium or Year columns, which pandas treats as 0 and 1 without failing, are also excluded.
- FeaturePreprocess.CleanData: requires numeric premium, total_claims and previous_claims columns, because pandas raises a TypeError when dividing or comparing text. Boolean premium, total_claims or previous_claims columns, which pandas treats as 0 and 1 without failing, are also excluded.
- MetricsPreprocess.SaveMetrics: treats any non-number in a reported column as an error. pandas averages and sums booleans as 0 and 1. It concatenates text in a sum before `float` rejects the result. These paths are not distinguished.
- Frames.IsNumeric and Frames.IsObject: the dtype is read off the values. A numeric column is one whose present cells are all numbers, and a column of booleans with none missing is boolean. Any other column is an object column. pandas' integer/float distinction and its handling of mixed columns are not modelled.
- Values.Less: categories and crosstab labels mixing numbers, booleans and strings are ordered numbers < booleans < strings. That order for such mixtures is the model's own choice; pandas' order for them is not modelled. Strings compare by character code.
- CompleteHypothesis.ClaimRatesOf: the claim label is the number 1. A HasClaim column of booleans, whose `True` pandas would also find under label 1, is not modelled.
- `chi2_contingency`'s own errors (for example on a table containing a zero expected frequency) are not modelled: it is a total function here.
- `value_counts()` orders its index by count. The model keeps codes in first-appearance order. Only the median is taken of that order, and the median does not depend on it.
- `load_config` and `main` of src/data/preprocess.py are not part of this model. `main` calls a `load_config` that the file does not define.
- PremiumOptimizer.OptimizePremium: `Failure(ZeroDivision)` for a current premium of 0 stands for numpy's result. The predicted severity is a numpy float, so the division gives an infinity or NaN with a RuntimeWarning rather than raising.
- FeaturePreprocess.FeatureFrameCells: promises nothing when an input column is named like another input column's `_code` column. The encoding loop then overwrites that input column, as pandas does.
- CompleteHypothesis.RatesFrom: with a zero female rate the percentage difference is `None`. numpy would give an infinity or NaN, with a warning.
- `optimize_premium` is given a record with optional Province, VehicleType and PreviousClaims. `policy_data` being a DataFrame, whose `.get` returns a column, is not modelled.

The model follows the source code in a few places where a plain reading of the design would say otherwise:
- In the complete tester, a province with at least ten rows and no LossRatio column raises a KeyError. It does not skip the test.
- In the gender test, both genders present without a claim label 1 raises a KeyError rather than omitting the rates.
- In the complete tester, run_all_tests lets an exception from any test propagate and stops there. It does not isolate failures and carry on with the remaining tests; `CompleteHypothesis.RunAll` follows that.

## Findings

| source | as written | input that shows it | evidently intended | confidence | as-written member | corrected member |
|---|---|---|---|---|---|---|
| notebooks/src/data/preprocess.py:80-82 | `duplicates_removed` is a local of clean_data, so save_metrics always reports 0. It also reports the cleaned table's row count as `original_rows`. | a table of two equal rows: the report says 1 original row and 0 duplicates removed | the raw row count and the number of rows drop_duplicates removed | not executed | MetricsPreprocess.DuplicatesNotReported | MetricsPreprocess.IntendedMetrics |
