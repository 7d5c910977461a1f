# kl_evolution in Dafny

This project models the core of `kl_evolution`, a small library that measures
how much the distribution of a time series changes with the time lag. It does
this with the Kullback-Leibler divergence between the series and shifted
copies of itself. The library also scores forecasts against a test segment:
it compares each forecast, and four reference baselines (five when a
seasonal period is given), with the test segment by the same divergence.

The model has six modules, one per file:

- `Wrappers` (`wrappers.dfy`): `Option` and `Result`. `Result` supports
  Dafny's `:-` failure propagation, which stands in for a Python exception
  leaving a function.
- `Floats` (`floats.dfy`): the float64 values numpy stores. A value is a
  finite real, `+inf`, `-inf` or NaN, with exact arithmetic. It also holds
  `nan_to_num`, the order on non-NaN values, addition, and division by a
  finite non-zero divisor.
- `DataObjects` (`serie.dfy`): the `Serie` class.
  - Its construction checks (`__post_init__`), length, and NaN-ignoring
    minimum and maximum.
  - `__all_eq__`.
  - `shift`: `np.roll` followed by NaN written over the slice `[:k]`.

  `Serie` is a class because the analyzer overwrites a caller's series in
  place.
- `KLDivergence` (`kl_divergence.dfy`): the guards of
  `KLDivergence.compute` (`0.0`, `+inf`, or the general formula). The
  formula `scipy.stats.entropy` is the parameter `entropy`.
- `TsAnalyzer` (`ts_analyzer.dfy`): `ShiftedSerieAnalyzer`.
  - The length check and the temporary `+1000` offset of a detrended or
    deseasonalised series.
  - The loop over the lags `1..max_horizon`.
  - The normalisation by one reference divergence.
  - The restoring of the caller's values.

  `Compute` and `ComputeKlForShifts` are methods proved against the
  functions `Analysis` and `LagDivergences`.
- `Evaluation` (`evaluation.dfy`): `ForecastEvaluation.evaluate_forecast`.
  - The naive, seasonal-naive and random-walk baselines.
  - The dictionary of divergences in Python's insertion order (a `seq` of
    key/value pairs; assigning an existing key keeps its place).
  - The optional division by the `"uniform"` entry.

  The method `EvaluateForecast`, with its loop `ScoreForecasts`, is proved
  equal to the function `ForecastScores`. The properties of the result are
  lemmas about that function.

The random draws (`np.random.uniform`, `np.random.normal`) are parameters of
the model. So is the entropy formula.

Some cases where the code's behaviour is worth spelling out:

- **Random walk:** the `random_walk` baseline is the running sum of the
  same white-noise draw used for `white_noise` (`evaluation.py:26-27`).
- **Empty operand:** the check `not p or not q` of `KLDivergence.compute`
  fires for an empty series, because a `Serie` defines `__len__` and no
  `__bool__` (`kl_divergence.py:13-14`).
- **Operand lengths:** `compute` does not compare the operands' lengths
  itself. Once both guards have passed, `scipy.stats.entropy` raises a
  ValueError for lengths numpy cannot broadcast together (different, and
  neither of them 1). The model raises `ShapeMismatch` there.
- **Seasonal period:** it is tested for Python truthiness everywhere. A
  period of `0` counts as absent, both in construction (`serie.py:19-22`)
  and for the seasonal-naive baseline (`evaluation.py:31,47`). A negative
  period is accepted; `%` then gives a remainder in `(period, 0]`, and the
  baseline reads the training values with Python's negative indices.
- **Negative shift:** for a negative `k`, `shift` blanks every position
  except the last `|k|`, because numpy's slice `[:k]` counts from the end
  (`serie.py:73`).
- **Duplicate keys:** a forecast whose identifier equals a baseline name,
  or an earlier forecast's identifier, overwrites that entry. The result
  then has fewer keys than baselines plus forecasts. An identifier may be
  `None`, which becomes a key of its own.
- **Uniform draw:** `np.random.uniform(low=min, high=max)` raises
  OverflowError unless `max - min` is finite. So a series holding an
  infinity, or only NaN, stops the analyzer when it normalises
  (`ts_analyzer.py:95-101`), and stops `evaluate_forecast` when it is the
  test segment (`evaluation.py:28`).
- **Division by zero:** a series that reads as all zero makes every
  divergence against it the Python float `0.0`, and `0.0 / 0.0` raises
  ZeroDivisionError. That happens in the analyzer's normalisation when
  there is at least one lag (`ts_analyzer.py:103`), and in
  `evaluate_forecast`'s normalisation (`evaluation.py:58-61`).
- **No `finally`:** `compute` restores a flagged series only when it
  returns normally. When the draw or the division raises, the caller's
  series keeps its values plus 1000 (`ts_analyzer.py:44-54`).

## Model

| member | source | states |
|---|---|---|
| DataObjects.Range | kl_evolution/core/data_objects/serie.py:24-25 | the default index has one entry per value and entry `i` is `i` |
| DataObjects.ConstructionError | kl_evolution/core/data_objects/serie.py:16-29 | construction succeeds iff (deseasonalize implies a truthy period) and a given index has the values' length; the missing-period error takes precedence |
| DataObjects.NanMin | kl_evolution/core/data_objects/serie.py:38-39 | fails iff the series is empty; NaN iff all values are NaN; otherwise a non-NaN value of the series that is `<=` every non-NaN value |
| DataObjects.NanMax | kl_evolution/core/data_objects/serie.py:41-42 | fails iff the series is empty; NaN iff all values are NaN; otherwise a non-NaN value of the series that is `>=` every non-NaN value |
| DataObjects.AllEq | kl_evolution/core/data_objects/serie.py:78-83 | every value equals `c` once NaN is read as 0 and an infinity as the largest float of its sign; true for an empty series |
| DataObjects.UniformDrawable | kl_evolution/core/features/ts_analyzer.py:98-100 | `np.random.uniform(low=min, high=max)` draws without OverflowError only for a non-empty series whose NaN-ignoring bounds are finite and at most the largest float apart; so a drawable series is not all NaN and holds no infinity |
| DataObjects.Shifted | kl_evolution/core/data_objects/serie.py:72-73 | keeps the length; the values themselves are stated by `DataObjects.ShiftedValues`, `DataObjects.ShiftBeyondLength` and `DataObjects.ShiftByZero` |
| DataObjects.ShiftedValues | kl_evolution/core/data_objects/serie.py:67-76 | for `k >= 0` the shifted values keep the length, the first `k` are NaN and entry `i >= k` is original entry `i - k` |
| DataObjects.ShiftBeyondLength | kl_evolution/core/data_objects/serie.py:72-73 | a shift by the length or more leaves only NaN |
| DataObjects.ShiftByZero | kl_evolution/core/data_objects/serie.py:72-73 | a shift by zero returns the values unchanged |
| DataObjects.Serie.constructor | kl_evolution/core/data_objects/serie.py:16-29 | on accepted arguments the object is valid, holds the arguments, and its index is the given one or `0..n-1` |
| DataObjects.Serie.Create | kl_evolution/core/data_objects/serie.py:16-29 | fails exactly with the error the checks raise; otherwise a fresh valid series holding the arguments, its index given or `0..n-1` |
| DataObjects.Serie.Length | kl_evolution/core/data_objects/serie.py:35-36 | the number of values, which for a valid series is also the number of index labels |
| DataObjects.Serie.Shift | kl_evolution/core/data_objects/serie.py:67-76 | a fresh valid series whose values are the rolled-and-masked values, with the same index and identifier and default flags |
| KLDivergence.Compute | kl_evolution/core/features/kl_divergence.py:7-26 | raises the missing-operand exception iff an operand is empty; `0.0` iff `p` reads as all zero; `+inf` iff `p` does not and `q` does; otherwise the formula on the unchanged operands, or its ValueError when their lengths do not broadcast |
| KLDivergence.ZeroWhenPIsZero | kl_evolution/core/features/kl_divergence.py:16-22 | an all-zero `p` gives `0.0` whatever `q` is |
| KLDivergence.InfiniteAgainstAllNaN | kl_evolution/core/features/kl_divergence.py:16-24 | an all-NaN `q` reads as zero, so against a `p` with a non-zero finite entry the result is `+inf` |
| KLDivergence.GeneralOnlyWhenBothNonZero | kl_evolution/core/features/kl_divergence.py:19-26 | the formula gives the result iff neither operand reads as all zero and their lengths broadcast; past the guards, lengths that do not broadcast raise |
| KLDivergence.SelfDivergenceIsZero | kl_evolution/core/features/kl_divergence.py:11-26 | if the formula gives 0 on `(p, p)`, so does `compute` |
| TsAnalyzer.Stabilized | kl_evolution/core/features/ts_analyzer.py:66-74 | a flagged series has each value increased by 1000; an unflagged one is unchanged |
| TsAnalyzer.LagDivergences | kl_evolution/core/features/ts_analyzer.py:76-86 | one divergence per lag `1..max_horizon`, none for a horizon below 1 |
| TsAnalyzer.Reference | kl_evolution/core/features/ts_analyzer.py:95-102 | the reference divergence is `0.0` iff the series reads as all zero, `+inf` iff it does not and the uniform draw does, and otherwise the formula on the series and the draw |
| TsAnalyzer.Normalized | kl_evolution/core/features/ts_analyzer.py:103 | one normalised divergence per lag; their values are stated by `TsAnalyzer.NormalizedScalesBack` |
| TsAnalyzer.Analysis | kl_evolution/core/features/ts_analyzer.py:29-56 | fails iff the series has at most one value, or it normalises and either the offset values have no finite range to draw from or they read as all zero with at least one lag; the length error iff at most one value; otherwise one result per lag: without normalisation the divergences at lags `1..max_horizon` of the (offset) values, with it those divergences divided by the reference, which is then usable and not the `0.0` guard; ZeroDivisionError only after the range has passed the uniform draw, so OverflowError comes first |
| TsAnalyzer.LagBeyondLength | kl_evolution/core/features/ts_analyzer.py:76-86 | a lag at or beyond the length gives `+inf`, or `0.0` when the series reads as all zero |
| TsAnalyzer.AllZeroSerie | kl_evolution/core/features/ts_analyzer.py:76-86 | an all-zero series has divergence `0.0` at every lag |
| TsAnalyzer.NormalizedScalesBack | kl_evolution/core/features/ts_analyzer.py:88-103 | a normalised finite divergence times the reference gives the raw one back; NaN stays NaN and an infinity keeps or flips sign with the reference |
| TsAnalyzer.OffsetToZeroRaises | kl_evolution/core/features/ts_analyzer.py:44-103 | a flagged series of values all -1000 reads as zero once offset, so normalising with at least one lag raises ZeroDivisionError |
| TsAnalyzer.InfiniteValueOverflows | kl_evolution/core/features/ts_analyzer.py:95-101 | with normalisation, a series holding an infinity raises at the uniform draw, flagged or not |
| TsAnalyzer.ShiftedSerieAnalyzer.constructor | kl_evolution/core/features/ts_analyzer.py:13-23 | stores the horizon and the normalisation flag (default true) |
| TsAnalyzer.ShiftedSerieAnalyzer.CheckIfSerieIsNotEmpty | kl_evolution/core/features/ts_analyzer.py:25-27 | true iff the series has at least two values; then its minimum and maximum, the bounds of the reference draw, exist |
| TsAnalyzer.ShiftedSerieAnalyzer.IsModified | kl_evolution/core/features/ts_analyzer.py:62-64 | true iff the series is detrended or deseasonalised; otherwise the offset leaves its values unchanged |
| TsAnalyzer.ShiftedSerieAnalyzer.ModifySerieValues | kl_evolution/core/features/ts_analyzer.py:66-74 | returns the old values and leaves the series holding them plus 1000, changing nothing else, so a valid series stays valid |
| TsAnalyzer.ShiftedSerieAnalyzer.ComputeKlForShifts | kl_evolution/core/features/ts_analyzer.py:76-86 | the loop returns, in lag order, the divergence of the values from their shift by each lag |
| TsAnalyzer.ShiftedSerieAnalyzer.Compute | kl_evolution/core/features/ts_analyzer.py:29-56 | raises exactly the error `Analysis` gives; writes the series only when it is flagged; its values end as they began, except after a raise past the length check, where a flagged series keeps the offset values; every other field is unchanged and a valid series stays valid; on success a fresh valid series of the (normalised) divergences, named "KL divergences over shifts", indexed `0..n-1` |
| Evaluation.Lookup | kl_evolution/core/results_formatting/evaluation.py:59 | the subscript `returned_dict["uniform"]`: the value filed under the key, which is the first entry's value when that entry has the key; an empty dictionary holds none. `Evaluation.LookupFindsKey` states when a key is found, and `Evaluation.RawKeys` that `uniform` always is |
| Evaluation.Put | kl_evolution/core/results_formatting/evaluation.py:47-55 | after `d[k] = v` the key `k` holds `v`, and the dictionary has grown by at most one entry; `Evaluation.PutLookup` and `Evaluation.PutKeys` state the other keys and the order |
| Evaluation.PutLookup | kl_evolution/core/results_formatting/evaluation.py:47-55 | after `d[k] = v`, `d.get(k)` is `v` and every other key keeps its value |
| Evaluation.PutKeys | kl_evolution/core/results_formatting/evaluation.py:47-55 | assigning a new key appends it; assigning an existing key keeps the key order |
| Evaluation.PutKeepsDistinct | kl_evolution/core/results_formatting/evaluation.py:47-55 | assignment keeps the keys distinct |
| Evaluation.LookupFindsKey | kl_evolution/core/results_formatting/evaluation.py:36-63 | a key has a value iff it is among the keys |
| Evaluation.Naive | kl_evolution/core/results_formatting/evaluation.py:30 | IndexError iff the training set is empty; otherwise `size` copies of its last value |
| Evaluation.PyMod | kl_evolution/core/results_formatting/evaluation.py:33 | Python's `%`: the remainder lies between 0 and the divisor, on the divisor's side |
| Evaluation.PyDivMod | kl_evolution/core/results_formatting/evaluation.py:33 | Python's `divmod` identity: `a == (a // b) * b + a % b`, so the remainder is congruent to `a` modulo `b` |
| Evaluation.SeasonalNaiveCycles | kl_evolution/core/results_formatting/evaluation.py:31-34 | for a positive period the baseline exists iff the training set holds `min(size, period)` values, and entry `i` is training value `i % period` |
| Evaluation.SeasonalNaiveNegativePeriod | kl_evolution/core/results_formatting/evaluation.py:31-34 | for a period `-c` the baseline exists iff `size` is 0, or the training set is non-empty and, when `size >= 2`, holds at least `c - 1` values; entry `i` is the first training value when `c` divides `i`, otherwise the value `c - i % c` places before the end |
| Evaluation.SeasonalNaive | kl_evolution/core/results_formatting/evaluation.py:31-34 | when the training values can be indexed, the baseline has one entry per test value; its values and when it raises IndexError are stated by `Evaluation.SeasonalNaiveCycles` and `Evaluation.SeasonalNaiveNegativePeriod` |
| Evaluation.CumSum | kl_evolution/core/results_formatting/evaluation.py:27 | `np.cumsum` keeps the length; its values are stated by `Evaluation.RandomWalkIsPrefixSum` |
| Evaluation.RandomWalkIsPrefixSum | kl_evolution/core/results_formatting/evaluation.py:26-27 | entry `i` of the random walk is the sum of the first `i + 1` white-noise values |
| Evaluation.Baselines | kl_evolution/core/results_formatting/evaluation.py:36-50 | the baselines are compared under `uniform`, `white_noise`, `random_walk`, `naive`, then `seasonal_naive` when built, each with its own series |
| Evaluation.SeasonalBaseline | kl_evolution/core/results_formatting/evaluation.py:31-34 | the seasonal-naive baseline is built only for a truthy period (`0` and `None` give none), with one entry per test value; when it raises IndexError is stated by `Evaluation.SeasonalNaiveCycles` and `Evaluation.SeasonalNaiveNegativePeriod` |
| Evaluation.RawScores | kl_evolution/core/results_formatting/evaluation.py:20-55 | a dictionary is built only from a non-empty test segment with a drawable range and a non-empty training set; the empty-test error is raised iff the test segment is empty |
| Evaluation.RawScoresFails | kl_evolution/core/results_formatting/evaluation.py:20-55 | with draws of the test length, building the dictionary raises iff the test segment is empty, its range overflows the uniform draw, the training set is empty, the seasonal-naive baseline indexes out of range, or the divergence refuses some forecast; the baselines never make it raise |
| Evaluation.Score | kl_evolution/core/results_formatting/evaluation.py:36-55 | the dictionary has at most one entry per comparison, and the only exception is one raised by a divergence; its keys and values are stated by `Evaluation.ScoreKeys` and `Evaluation.LaterComparisonWins` |
| Evaluation.ScoreSnoc | kl_evolution/core/results_formatting/evaluation.py:52-55 | one more comparison either raises the divergence's error or stores its value under its key |
| Evaluation.ScoreFailureSticks | kl_evolution/core/results_formatting/evaluation.py:36-55 | once a divergence raises, later comparisons do not change the outcome |
| Evaluation.ScoreFails | kl_evolution/core/results_formatting/evaluation.py:36-55 | building the dictionary raises iff the divergence refuses some compared series: an empty one, or one whose length does not broadcast with the test segment's once the formula is reached |
| Evaluation.ScoreKeys | kl_evolution/core/results_formatting/evaluation.py:36-55 | the dictionary's keys are distinct and are exactly the compared keys |
| Evaluation.LaterComparisonWins | kl_evolution/core/results_formatting/evaluation.py:47-55 | each key holds the divergence of the last comparison filed under it |
| Evaluation.ScoreKeepsInsertionOrder | kl_evolution/core/results_formatting/evaluation.py:36-55 | the keys of a prefix of the comparisons are a prefix of the final keys |
| Evaluation.Identified | kl_evolution/core/results_formatting/evaluation.py:52-55 | each forecast is compared under its identifier with its values, in list order |
| Evaluation.Divide | kl_evolution/core/results_formatting/evaluation.py:57-61 | division keeps the keys and their order |
| Evaluation.LookupDivide | kl_evolution/core/results_formatting/evaluation.py:57-61 | after division each present key holds its value divided by the divisor, and absent keys stay absent |
| Evaluation.BaselineScores | kl_evolution/core/results_formatting/evaluation.py:36-45 | the dictionary literal holds the four baseline divergences in the order written |
| Evaluation.BaselineDictionary | kl_evolution/core/results_formatting/evaluation.py:36-50 | the baselines alone give exactly the baseline keys, `seasonal_naive` last when built |
| Evaluation.BaselinesFirst | kl_evolution/core/results_formatting/evaluation.py:36-55 | the result's keys start with the baseline keys in insertion order |
| Evaluation.RawKeys | kl_evolution/core/results_formatting/evaluation.py:36-55 | the keys are distinct and are exactly the baseline keys and the forecast identifiers |
| Evaluation.ResultKeys | kl_evolution/core/results_formatting/evaluation.py:9-63 | the keys are distinct; they open with `uniform, white_noise, random_walk, naive` and then `seasonal_naive` iff the period is truthy; a key is present iff it is a baseline key or a forecast identifier; without forecasts, exactly the baseline keys |
| Evaluation.LaterForecastWins | kl_evolution/core/results_formatting/evaluation.py:36-55 | the last forecast with an identifier sets that key's value; without a forecast named `uniform`, that entry is the divergence from the uniform draw |
| Evaluation.AllZeroTestScoresZero | kl_evolution/core/results_formatting/evaluation.py:36-55 | against a test segment that reads as all zero, every entry of the dictionary is `0.0` |
| Evaluation.ForecastScores | kl_evolution/core/results_formatting/evaluation.py:36-63 | raises iff building the raw dictionary raises, or `normalize` is set and the test segment reads as all zero (ZeroDivisionError); otherwise its keys are those of the raw dictionary |
| Evaluation.WithoutNormalizeIsRaw | kl_evolution/core/results_formatting/evaluation.py:57-63 | without `normalize` the dictionary is returned as built, for every input |
| Evaluation.NormalizationDividesByUniform | kl_evolution/core/results_formatting/evaluation.py:57-63 | with `normalize`, an all-zero test segment makes `uniform` the float `0.0` and the division raises; otherwise the keys stay, `uniform` becomes 1 and every value is divided by the raw `uniform` value |
| Evaluation.ScoreForecasts | kl_evolution/core/results_formatting/evaluation.py:52-55 | the loop extends the dictionary with each forecast in list order, or raises the first divergence error |
| Evaluation.EvaluateForecast | kl_evolution/core/results_formatting/evaluation.py:9-63 | the result is `ForecastScores`. In order, it raises for an empty test set, a test set with no finite range for the uniform draw, an empty training set, a seasonal index out of range, a compared series the divergence refuses (when each of these raises is stated by `Evaluation.RawScoresFails`), and, when normalising, a test set that reads as all zero. Otherwise it returns the (optionally normalised) dictionary |

## Left out

- Float rounding: values are exact reals, with the infinities and NaN. Sums, quotients and the `+1000` offset do not round. The overflow test of the uniform draw compares the exact difference of its bounds with the largest float. `np.array(..., dtype=float)` coercion is the identity.
- The entropy formula (`scipy.stats.entropy` with `nan_policy="omit"`) is a parameter, except for its ValueError on lengths that do not broadcast, which is modelled. How it broadcasts a length-1 operand is left to the parameter.
- The random draws are parameters: `np.random.uniform` in the analyzer and in `evaluate_forecast`, and `np.random.normal`. Their distributions are not modelled. The OverflowError of `uniform` for bounds whose difference is not finite is modelled. `normal` is taken not to raise: `nanstd` gives a non-negative or NaN scale.
- `Serie.__avg__` and `Serie.__std__` only parameterise the normal draw; they are not modelled.
- `Serie.__from_pandas__`, `Serie.__repr__`, the plotter and the example scripts are not part of this model.
- The index of a series is modelled as integers, not as arbitrary pandas or numpy index values.
- A `None` operand for `KLDivergence.compute` cannot be represented; only an empty series triggers its exception.
- TsAnalyzer.ShiftedSerieAnalyzer.Compute: when normalising a series of at least two values with at least one lag and a drawable range, requires that a reference from the formula or from the `+inf` guard be finite and non-zero. Dividing by an `np.float64` zero, NaN or infinity follows numpy's warning semantics, and dividing by the `+inf` guard gives `0.0` or NaN; neither is modelled. The `0.0` guard, with its ZeroDivisionError, is modelled.
- TsAnalyzer.Analysis: the same requires as `TsAnalyzer.ShiftedSerieAnalyzer.Compute`, for the same reason.
- Evaluation.ForecastScores: when normalising a test set that does not read as all zero, requires the `uniform` entry to be finite and non-zero (`Normalizable`). Python's `/` by an `np.float64` zero or NaN gives numpy's quotients, and by the `+inf` guard gives `0.0` or NaN (`evaluation.py:58-61`); neither is modelled. `Evaluation.ResultKeys` and `Evaluation.NormalizationDividesByUniform` inherit this requires; `Evaluation.WithoutNormalizeIsRaw` does not.
- Evaluation.EvaluateForecast: the same requires as `Evaluation.ForecastScores`. It also requires draws of the test segment's length. A forecast may be a `Serie` object the caller keeps; the model does not track aliasing between it and the test or training series.
- DataObjects.Serie.constructor: requires arguments that `__post_init__` accepts. The rejecting path is `DataObjects.Serie.Create`.
