/** `ForecastEvaluation.evaluate_forecast` of
    kl_evolution/core/results_formatting/evaluation.py: baseline series built
    from a training and a test segment, the divergence of the test segment
    against each baseline and each forecast, gathered in an insertion-ordered
    dictionary, optionally divided by the "uniform" entry. The random draws
    enter as parameters. */
module Evaluation {
  import opened Wrappers
  import opened Floats
  import opened DataObjects
  import KL = KLDivergence

  /** A dictionary key: a baseline name, or a forecast's identifier, which may be `None`. */
  type Key = Option<string>

  /** A Python dict in insertion order. */
  type Scores = seq<(Key, Float)>

  /** A baseline or forecast to compare the test segment with, under its key. */
  type Comparison = (Key, seq<Float>)

  const Uniform: Key := Some("uniform")
  const WhiteNoise: Key := Some("white_noise")
  const RandomWalk: Key := Some("random_walk")
  const NaiveKey: Key := Some("naive")
  const SeasonalNaiveKey: Key := Some("seasonal_naive")

  /** The errors that escape `evaluate_forecast`: numpy's ValueError from the
      minimum of an empty test segment, numpy's OverflowError when the bounds
      of the uniform draw are not finite, an IndexError on the training
      values, an exception from the divergence, and the ZeroDivisionError of
      dividing the float `0.0` by the "uniform" entry `0.0`. */
  datatype EvalError =
    | EmptyTestSet
    | DrawOverflow
    | IndexOutOfRange
    | DivergenceFailed(cause: KL.KLError)
    | ZeroDivision

  // ---------------------------------------------------------------------------
  // The dictionary

  /** The keys of a dictionary or of a list of comparisons, in order. */
  function KeysOf<V>(d: seq<(Key, V)>): (ks: seq<Key>)
    ensures |ks| == |d|
    ensures forall i :: 0 <= i < |d| ==> ks[i] == d[i].0
  {
    seq(|d|, i requires 0 <= i < |d| => d[i].0)
  }

  lemma KeysOfConcat<V>(a: seq<(Key, V)>, b: seq<(Key, V)>)
    ensures KeysOf(a + b) == KeysOf(a) + KeysOf(b)
  {
    assert forall i :: 0 <= i < |b| ==> (a + b)[|a| + i] == b[i];
  }

  predicate DistinctKeys(d: Scores)
  {
    forall i, j :: 0 <= i < j < |d| ==> d[i].0 != d[j].0
  }

  /** `d.get(k)`: the value of the first entry under `k`, if any. */
  function Lookup(d: Scores, k: Key): (r: Option<Float>)
    ensures r.Some? ==> |d| > 0 && (d[0].0 == k ==> r.value == d[0].1)
    ensures d != [] && d[0].0 == k ==> r.Some?
  {
    if d == [] then None
    else if d[0].0 == k then Some(d[0].1)
    else Lookup(d[1..], k)
  }

  lemma {:induction false} LookupFindsKey(d: Scores, k: Key)
    ensures Lookup(d, k).Some? <==> k in KeysOf(d)
  {
    if d != [] {
      LookupFindsKey(d[1..], k);
      assert KeysOf(d) == [d[0].0] + KeysOf(d[1..]);
    }
  }

  /** `d[k] = v`: the entry under `k` is replaced in place, or appended. */
  function Put(d: Scores, k: Key, v: Float): (r: Scores)
    ensures Lookup(r, k) == Some(v)
    ensures |d| <= |r| <= |d| + 1
  {
    if d == [] then [(k, v)]
    else if d[0].0 == k then [(k, v)] + d[1..]
    else [d[0]] + Put(d[1..], k, v)
  }

  /** After `d[k] = v`, `d.get(k)` is `v` and every other key keeps its value. */
  lemma {:induction false} PutLookup(d: Scores, k: Key, v: Float)
    ensures Lookup(Put(d, k, v), k) == Some(v)
    ensures forall k' :: k' != k ==> Lookup(Put(d, k, v), k') == Lookup(d, k')
  {
    if d != [] && d[0].0 != k {
      PutLookup(d[1..], k, v);
      assert Put(d, k, v)[1..] == Put(d[1..], k, v);
    }
  }

  /** A new key goes to the end; an existing one keeps its place. */
  lemma {:induction false} PutKeys(d: Scores, k: Key, v: Float)
    ensures k in KeysOf(d) ==> KeysOf(Put(d, k, v)) == KeysOf(d)
    ensures k !in KeysOf(d) ==> KeysOf(Put(d, k, v)) == KeysOf(d) + [k]
  {
    if d == [] {
      assert KeysOf(Put(d, k, v)) == [k];
    } else {
      var head, tail := [d[0]], d[1..];
      assert d == head + tail;
      KeysOfConcat(head, tail);
      assert KeysOf(head) == [d[0].0];
      if d[0].0 == k {
        assert Put(d, k, v) == [(k, v)] + tail;
        KeysOfConcat([(k, v)], tail);
        assert KeysOf([(k, v)]) == [k];
      } else {
        PutKeys(tail, k, v);
        assert Put(d, k, v) == head + Put(tail, k, v);
        KeysOfConcat(head, Put(tail, k, v));
      }
    }
  }

  lemma PutKeepsDistinct(d: Scores, k: Key, v: Float)
    requires DistinctKeys(d)
    ensures DistinctKeys(Put(d, k, v))
  {
    var r := Put(d, k, v);
    PutKeys(d, k, v);
    forall i, j | 0 <= i < j < |r| ensures r[i].0 != r[j].0 {
      assert KeysOf(r)[i] == r[i].0 && KeysOf(r)[j] == r[j].0;
      if k !in KeysOf(d) && j == |d| {
        assert KeysOf(d)[i] == r[i].0;
      } else {
        assert KeysOf(d)[i] == r[i].0 && KeysOf(d)[j] == r[j].0;
      }
    }
  }

  // ---------------------------------------------------------------------------
  // Baselines

  /** `[train.values[-1]] * size`: the last training value repeated; an
      IndexError on an empty training set, whatever the size. */
  function Naive(train: seq<Float>, size: nat): (r: Result<seq<Float>, EvalError>)
    ensures r.Failure? <==> |train| == 0
    ensures r.Success? ==> |r.value| == size
    ensures r.Success? ==> forall i :: 0 <= i < size ==> r.value[i] == train[|train| - 1]
  {
    if |train| == 0 then Failure(IndexOutOfRange)
    else Success(seq(size, _ => train[|train| - 1]))
  }

  /** Python's `a % b`: the remainder takes the sign of the divisor. */
  function PyMod(a: int, b: int): (m: int)
    requires b != 0
    ensures b > 0 ==> 0 <= m < b
    ensures b < 0 ==> b < m <= 0
  {
    if b > 0 then a % b
    else if a % -b == 0 then 0
    else a % -b + b
  }

  /** Python's `a // b`: the quotient rounded towards negative infinity. */
  function PyFloorDiv(a: int, b: int): int
    requires b != 0
  {
    if b > 0 then a / b
    else if a % -b == 0 then -(a / -b)
    else -(a / -b) - 1
  }

  /** Python's `divmod` identity: the remainder is what the floored quotient
      leaves, so it is congruent to `a` modulo `b`. */
  lemma PyDivMod(a: int, b: int)
    requires b != 0
    ensures a == PyFloorDiv(a, b) * b + PyMod(a, b)
  {
    if b < 0 {
      var c := -b;
      var q, r := a / c, a % c;
      assert a == q * c + r;
      if r == 0 {
        assert PyFloorDiv(a, b) * b == (-q) * (-c) == q * c;
      } else {
        assert PyFloorDiv(a, b) * b == (-q - 1) * (-c) == q * c + c;
        assert PyMod(a, b) == r - c;
      }
    }
  }

  /** Whether `s[j]` is a valid Python/numpy index into `n` values. */
  predicate PyIndexable(n: nat, j: int)
  {
    -(n as int) <= j < n
  }

  /** `s[j]` with Python's negative indices counting from the end. */
  function PyAt(s: seq<Float>, j: int): Float
    requires PyIndexable(|s|, j)
  {
    if j >= 0 then s[j] else s[|s| + j]
  }

  /** `[train.values[i % period] for i in range(size)]`, or the IndexError
      the first out-of-range position raises. */
  function SeasonalNaive(train: seq<Float>, size: nat, period: int): (r: Result<seq<Float>, EvalError>)
    requires period != 0
    ensures r.Success? ==> |r.value| == size
  {
    if forall i :: 0 <= i < size ==> PyIndexable(|train|, PyMod(i, period))
    then Success(seq(size, i requires 0 <= i < size => PyAt(train, PyMod(i, period))))
    else Failure(IndexOutOfRange)
  }

  /** For a positive period the baseline cycles through the first `period`
      training values, and it exists exactly when the training set holds the
      `min(size, period)` values it reaches. */
  lemma SeasonalNaiveCycles(train: seq<Float>, size: nat, period: int)
    requires period > 0
    ensures SeasonalNaive(train, size, period).Success? <==>
              (if size < period then size else period) <= |train|
    ensures SeasonalNaive(train, size, period).Success? ==>
              |SeasonalNaive(train, size, period).value| == size &&
              forall i :: 0 <= i < size ==> SeasonalNaive(train, size, period).value[i] == train[i % period]
  {
    var reach := if size < period then size else period;
    if reach <= |train| {
      forall i | 0 <= i < size ensures PyIndexable(|train|, PyMod(i, period)) {
        ModBelow(i, period);
      }
    } else {
      ModBelow(reach - 1, period);
    }
  }

  /** For a negative period `-c` the baseline counts from the end of the
      training set: entry `i` is the value `c - i % c` places before the end,
      or the first value when `c` divides `i`. It exists when the training set
      is long enough for the first entry and, from the second on, for the
      furthest reach `c - 1`. */
  lemma SeasonalNaiveNegativePeriod(train: seq<Float>, size: nat, period: int)
    requires period < 0
    ensures SeasonalNaive(train, size, period).Success? <==>
              size == 0 || (0 < |train| && (size == 1 || -period - 1 <= |train|))
    ensures SeasonalNaive(train, size, period).Success? ==>
              forall i :: 0 <= i < size ==>
                SeasonalNaive(train, size, period).value[i]
                  == if i % -period == 0 then train[0] else train[|train| - (-period - i % -period)]
  {
    NegativePeriodReach(train, size, period);
    if SeasonalNaive(train, size, period).Success? {
      var r := SeasonalNaive(train, size, period).value;
      forall i | 0 <= i < size
        ensures r[i] == if i % -period == 0 then train[0] else train[|train| - (-period - i % -period)]
      {
        NegativeModAt(i, period);
      }
    }
  }

  lemma NegativePeriodReach(train: seq<Float>, size: nat, period: int)
    requires period < 0
    ensures (forall i :: 0 <= i < size ==> PyIndexable(|train|, PyMod(i, period))) <==>
              size == 0 || (0 < |train| && (size == 1 || -period - 1 <= |train|))
  {
    var c := -period;
    if size > 0 && 0 < |train| && (size == 1 || c - 1 <= |train|) {
      forall i | 0 <= i < size ensures PyIndexable(|train|, PyMod(i, period)) {
        NegativeModAt(i, period);
      }
    } else if size > 1 && 0 < |train| {
      NegativeModAt(1, period);
      assert !PyIndexable(|train|, PyMod(1, period));
    } else if size > 0 {
      NegativeModAt(0, period);
      assert !PyIndexable(|train|, PyMod(0, period));
    }
  }

  lemma NegativeModAt(i: nat, period: int)
    requires period < 0
    ensures 0 <= i % -period < -period
    ensures i < -period ==> i % -period == i
    ensures PyMod(i, period) == if i % -period == 0 then 0 else i % -period + period
  {
  }

  lemma ModBelow(i: nat, period: int)
    requires period > 0
    ensures PyMod(i, period) == i % period
    ensures 0 <= i % period < period
    ensures i < period ==> i % period == i
  {
  }

  /** The sum of a non-empty sequence, accumulated left to right. */
  function Sum(s: seq<Float>): Float
    requires |s| > 0
  {
    if |s| == 1 then s[0] else Plus(Sum(s[..|s| - 1]), s[|s| - 1])
  }

  /** numpy's running accumulation: each output adds the next input to the
      previous output. */
  function CumSumFrom(acc: Float, s: seq<Float>): (r: seq<Float>)
    ensures |r| == |s|
    decreases |s|
  {
    if s == [] then []
    else
      var next := Plus(acc, s[0]);
      [next] + CumSumFrom(next, s[1..])
  }

  /** `np.cumsum`: the random walk built from the white-noise draw. */
  function CumSum(s: seq<Float>): (r: seq<Float>)
    ensures |r| == |s|
  {
    if s == [] then [] else [s[0]] + CumSumFrom(s[0], s[1..])
  }

  lemma SumSnoc(p: seq<Float>, x: Float)
    requires |p| > 0
    ensures Sum(p + [x]) == Plus(Sum(p), x)
  {
    assert (p + [x])[..|p|] == p;
  }

  lemma {:induction false} CumSumFromIsPrefixSum(p: seq<Float>, s: seq<Float>, i: nat)
    requires |p| > 0 && i < |s|
    ensures CumSumFrom(Sum(p), s)[i] == Sum(p + s[..i + 1])
    decreases i
  {
    var p' := p + [s[0]];
    SumSnoc(p, s[0]);
    assert CumSumFrom(Sum(p), s) == [Sum(p')] + CumSumFrom(Sum(p'), s[1..]);
    if i == 0 {
      assert p + s[..1] == p';
    } else {
      CumSumFromIsPrefixSum(p', s[1..], i - 1);
      assert p' + s[1..][..i] == p + s[..i + 1];
    }
  }

  /** Entry `i` of the random walk is the sum of the first `i + 1` draws. */
  lemma RandomWalkIsPrefixSum(s: seq<Float>)
    ensures |CumSum(s)| == |s|
    ensures forall i :: 0 <= i < |s| ==> CumSum(s)[i] == Sum(s[..i + 1])
  {
    forall i | 0 <= i < |s| ensures CumSum(s)[i] == Sum(s[..i + 1]) {
      RandomWalkAt(s, i);
    }
  }

  lemma RandomWalkAt(s: seq<Float>, i: nat)
    requires i < |s|
    ensures CumSum(s)[i] == Sum(s[..i + 1])
  {
    if i > 0 {
      assert Sum([s[0]]) == s[0];
      CumSumFromIsPrefixSum([s[0]], s[1..], i - 1);
      assert CumSum(s)[i] == CumSumFrom(s[0], s[1..])[i - 1];
      assert [s[0]] + s[1..][..i] == s[..i + 1];
    } else {
      assert s[..1] == [s[0]];
    }
  }

  // ---------------------------------------------------------------------------
  // The dictionary of divergences

  /** The baselines in the order their divergences are computed: the four of
      the dictionary literal, then the seasonal-naive one if it was built. */
  function Baselines(uniform: seq<Float>, whiteNoise: seq<Float>, randomWalk: seq<Float>, naive: seq<Float>,
                     seasonal: Option<seq<Float>>): (b: seq<Comparison>)
    ensures KeysOf(b) == BaselineKeys(seasonal.Some?)
    ensures b[..4] == [(Uniform, uniform), (WhiteNoise, whiteNoise), (RandomWalk, randomWalk), (NaiveKey, naive)]
    ensures seasonal.Some? ==> b[4] == (SeasonalNaiveKey, seasonal.value)
  {
    [(Uniform, uniform), (WhiteNoise, whiteNoise), (RandomWalk, randomWalk), (NaiveKey, naive)]
    + (if seasonal.Some? then [(SeasonalNaiveKey, seasonal.value)] else [])
  }

  /** The baseline keys, in the order they are inserted. */
  function BaselineKeys(seasonal: bool): seq<Key>
  {
    [Uniform, WhiteNoise, RandomWalk, NaiveKey] + (if seasonal then [SeasonalNaiveKey] else [])
  }

  /** The dictionary after computing each comparison's divergence in order and
      storing it under its key; the first exception ends it. */
  function Score(test: seq<Float>, comps: seq<Comparison>, entropy: KL.Entropy): (r: Result<Scores, EvalError>)
    requires |test| > 0
    ensures r.Success? ==> |r.value| <= |comps|
    ensures r.Failure? ==> r.error.DivergenceFailed?
  {
    if comps == [] then Success([])
    else
      var d :- Score(test, comps[..|comps| - 1], entropy);
      var last := comps[|comps| - 1];
      var div := KL.Compute(test, last.1);
      if div.Failure? then Failure(DivergenceFailed(div.error))
      else Success(Put(d, last.0, div.value.Value(entropy)))
  }

  /** One more comparison: its divergence stored under its key, or its exception. */
  lemma ScoreSnoc(test: seq<Float>, comps: seq<Comparison>, c: Comparison, entropy: KL.Entropy)
    requires |test| > 0
    requires Score(test, comps, entropy).Success?
    ensures var div := KL.Compute(test, c.1);
            Score(test, comps + [c], entropy)
              == if div.Failure? then Failure(DivergenceFailed(div.error))
                 else Success(Put(Score(test, comps, entropy).value, c.0, div.value.Value(entropy)))
  {
    assert (comps + [c])[..|comps|] == comps;
  }

  /** An exception part-way through is the exception of the whole. */
  lemma {:induction false} ScoreFailureExtends(test: seq<Float>, comps: seq<Comparison>, n: nat, entropy: KL.Entropy)
    requires |test| > 0 && n <= |comps|
    requires Score(test, comps[..n], entropy).Failure?
    ensures Score(test, comps, entropy) == Score(test, comps[..n], entropy)
    decreases |comps| - n
  {
    if n < |comps| {
      var init := comps[..|comps| - 1];
      assert init[..n] == comps[..n];
      ScoreFailureExtends(test, init, n, entropy);
    } else {
      assert comps[..n] == comps;
    }
  }

  /** Once an exception is raised, later comparisons change nothing. */
  lemma ScoreFailureSticks(test: seq<Float>, comps: seq<Comparison>, rest: seq<Comparison>, entropy: KL.Entropy)
    requires |test| > 0
    requires Score(test, comps, entropy).Failure?
    ensures Score(test, comps + rest, entropy) == Score(test, comps, entropy)
  {
    assert (comps + rest)[..|comps|] == comps;
    ScoreFailureExtends(test, comps + rest, |comps|, entropy);
  }

  /** The computation fails exactly when the divergence refuses some
      compared series: an empty one, or one whose length does not broadcast
      with the test segment's once the formula is reached. */
  lemma {:induction false} ScoreFails(test: seq<Float>, comps: seq<Comparison>, entropy: KL.Entropy)
    requires |test| > 0
    ensures Score(test, comps, entropy).Failure? <==> exists j :: 0 <= j < |comps| && !KL.Accepts(test, comps[j].1)
  {
    if comps != [] {
      var init := comps[..|comps| - 1];
      ScoreFails(test, init, entropy);
      if exists j :: 0 <= j < |comps| && !KL.Accepts(test, comps[j].1) {
        var j :| 0 <= j < |comps| && !KL.Accepts(test, comps[j].1);
        if j < |init| {
          assert !KL.Accepts(test, init[j].1);
        }
      }
    }
  }

  /** Every key of the dictionary is the key of some comparison and every
      comparison's key is in it, each once. */
  lemma {:induction false} ScoreKeys(test: seq<Float>, comps: seq<Comparison>, entropy: KL.Entropy)
    requires |test| > 0
    requires Score(test, comps, entropy).Success?
    ensures DistinctKeys(Score(test, comps, entropy).value)
    ensures forall k :: Lookup(Score(test, comps, entropy).value, k).Some? <==> k in KeysOf(comps)
  {
    if comps != [] {
      var init := comps[..|comps| - 1];
      var last := comps[|comps| - 1];
      ScoreKeys(test, init, entropy);
      var d := Score(test, init, entropy).value;
      var v := KL.Compute(test, last.1).value.Value(entropy);
      PutKeepsDistinct(d, last.0, v);
      PutLookup(d, last.0, v);
      assert comps == init + [last];
      KeysOfConcat(init, [last]);
      assert KeysOf(comps) == KeysOf(init) + [last.0];
      forall k ensures Lookup(Put(d, last.0, v), k).Some? <==> k in KeysOf(comps) {
        if k != last.0 {
          assert Lookup(Put(d, last.0, v), k) == Lookup(d, k);
        }
      }
    }
  }

  /** Comparison `j` is the last one under its key. */
  predicate LastWithKey(comps: seq<Comparison>, j: int)
    requires 0 <= j < |comps|
  {
    forall l :: j < l < |comps| ==> comps[l].0 != comps[j].0
  }

  /** A later comparison overwrites an earlier one under the same key: each
      key holds the divergence of the last comparison filed under it. */
  lemma {:induction false} LaterComparisonWins(test: seq<Float>, comps: seq<Comparison>, entropy: KL.Entropy)
    requires |test| > 0
    requires Score(test, comps, entropy).Success?
    ensures forall j :: 0 <= j < |comps| && LastWithKey(comps, j) ==>
              KL.Accepts(test, comps[j].1) &&
              Lookup(Score(test, comps, entropy).value, comps[j].0) == Some(KL.ComputeFloat(test, comps[j].1, entropy))
  {
    if comps != [] {
      var init := comps[..|comps| - 1];
      var last := comps[|comps| - 1];
      LaterComparisonWins(test, init, entropy);
      ScoreFails(test, comps, entropy);
      assert KL.Accepts(test, last.1);
      PutLookup(Score(test, init, entropy).value, last.0, KL.ComputeFloat(test, last.1, entropy));
      forall j | 0 <= j < |comps| && LastWithKey(comps, j)
        ensures KL.Accepts(test, comps[j].1) &&
                Lookup(Score(test, comps, entropy).value, comps[j].0) == Some(KL.ComputeFloat(test, comps[j].1, entropy))
      {
        if j < |init| {
          assert LastWithKey(init, j);
          assert last.0 != comps[j].0;
          ScoreFails(test, init, entropy);
        }
      }
    }
  }

  /** Keys keep the order they were first inserted in: the dictionary of a
      prefix of the comparisons lists its keys first, in the same order. */
  lemma {:induction false} ScoreKeepsInsertionOrder(test: seq<Float>, comps: seq<Comparison>, n: nat, entropy: KL.Entropy)
    requires |test| > 0 && n <= |comps|
    requires Score(test, comps, entropy).Success?
    ensures Score(test, comps[..n], entropy).Success?
    ensures KeysOf(Score(test, comps[..n], entropy).value) <= KeysOf(Score(test, comps, entropy).value)
    decreases |comps| - n
  {
    if n < |comps| {
      var init := comps[..|comps| - 1];
      assert init[..n] == comps[..n];
      ScoreKeepsInsertionOrder(test, init, n, entropy);
      var last := comps[|comps| - 1];
      PutKeys(Score(test, init, entropy).value, last.0, KL.Compute(test, last.1).value.Value(entropy));
    } else {
      assert comps[..n] == comps;
    }
  }

  // ---------------------------------------------------------------------------
  // evaluate_forecast

  /** The forecasts as comparisons under their identifiers. */
  function Identified(forecasts: seq<Serie>): (c: seq<Comparison>)
    reads set f | f in forecasts
    ensures |c| == |forecasts|
    ensures forall i :: 0 <= i < |forecasts| ==> c[i] == (forecasts[i].identifier, forecasts[i].values)
  {
    seq(|forecasts|, i reads set f | f in forecasts requires 0 <= i < |forecasts| =>
                       (forecasts[i].identifier, forecasts[i].values))
  }

  /** The seasonal-naive baseline when the period is truthy, nothing otherwise. */
  function SeasonalBaseline(train: seq<Float>, size: nat, seasonalPeriod: Option<int>)
    : (r: Result<Option<seq<Float>>, EvalError>)
    ensures r.Success? && r.value.Some? ==> |r.value.value| == size
  {
    if !Truthy(seasonalPeriod) then Success(None)
    else match SeasonalNaive(train, size, seasonalPeriod.value)
         case Success(s) => Success(Some(s))
         case Failure(e) => Failure(e)
  }

  /** The dictionary before normalisation, or the exception raised building it. */
  function RawScores(train: seq<Float>, test: seq<Float>, forecasts: seq<Comparison>, seasonalPeriod: Option<int>,
                     uniformDraw: seq<Float>, whiteNoise: seq<Float>, entropy: KL.Entropy): (r: Result<Scores, EvalError>)
    ensures r.Success? ==> |test| > 0 && UniformDrawable(test) && |train| > 0
    ensures r.Failure? && r.error == EmptyTestSet <==> |test| == 0
  {
    if |test| == 0 then Failure(EmptyTestSet)
    else if !UniformDrawable(test) then Failure(DrawOverflow)
    else
      var naive :- Naive(train, |test|);
      var seasonal :- SeasonalBaseline(train, |test|, seasonalPeriod);
      Score(test, Baselines(uniformDraw, whiteNoise, CumSum(whiteNoise), naive, seasonal) + forecasts, entropy)
  }

  /** The "uniform" entry is a finite, non-zero divisor. */
  predicate UsableNormalizer(d: Scores)
  {
    Lookup(d, Uniform).Some? && Lookup(d, Uniform).value.Fin? && Lookup(d, Uniform).value.x != 0.0
  }

  /** Every value divided by `u`, keys and order unchanged. */
  function Divide(d: Scores, u: real): (r: Scores)
    requires u != 0.0
    ensures KeysOf(r) == KeysOf(d)
  {
    seq(|d|, i requires 0 <= i < |d| => (d[i].0, DivBy(d[i].1, u)))
  }

  lemma {:induction false} LookupDivide(d: Scores, u: real, k: Key)
    requires u != 0.0
    ensures Lookup(Divide(d, u), k) == if Lookup(d, k).Some? then Some(DivBy(Lookup(d, k).value, u)) else None
  {
    if d != [] {
      assert Divide(d, u)[1..] == Divide(d[1..], u);
      LookupDivide(d[1..], u, k);
    }
  }

  /** What `evaluate_forecast` returns. */
  function ForecastScores(train: seq<Float>, test: seq<Float>, forecasts: seq<Comparison>, seasonalPeriod: Option<int>,
                          normalize: bool, uniformDraw: seq<Float>, whiteNoise: seq<Float>, entropy: KL.Entropy)
    : (r: Result<Scores, EvalError>)
    requires Normalizable(train, test, forecasts, seasonalPeriod, normalize, uniformDraw, whiteNoise, entropy)
    ensures r.Failure? <==>
              RawScores(train, test, forecasts, seasonalPeriod, uniformDraw, whiteNoise, entropy).Failure?
              || (normalize && AllEq(test, 0.0))
    ensures r.Success? ==>
              KeysOf(r.value) == KeysOf(RawScores(train, test, forecasts, seasonalPeriod, uniformDraw, whiteNoise, entropy).value)
  {
    var d :- RawScores(train, test, forecasts, seasonalPeriod, uniformDraw, whiteNoise, entropy);
    if !normalize then Success(d)
    else if AllEq(test, 0.0) then Failure(ZeroDivision)
    else Success(Divide(d, Lookup(d, Uniform).value.x))
  }

  /** When the division happens and the test segment does not read as all
      zero, the "uniform" entry is a finite non-zero divisor. */
  predicate Normalizable(train: seq<Float>, test: seq<Float>, forecasts: seq<Comparison>, seasonalPeriod: Option<int>,
                         normalize: bool, uniformDraw: seq<Float>, whiteNoise: seq<Float>, entropy: KL.Entropy)
  {
    normalize && RawScores(train, test, forecasts, seasonalPeriod, uniformDraw, whiteNoise, entropy).Success?
      && !AllEq(test, 0.0) ==>
    UsableNormalizer(RawScores(train, test, forecasts, seasonalPeriod, uniformDraw, whiteNoise, entropy).value)
  }

  /** The four baselines' dictionary, as the literal in the source builds it. */
  lemma {:induction false} BaselineScores(test: seq<Float>, comps: seq<Comparison>, entropy: KL.Entropy)
    requires |test| > 0 && |comps| >= 4
    requires forall j :: 0 <= j < 4 ==> KL.Accepts(test, comps[j].1)
    requires comps[0].0 == Uniform && comps[1].0 == WhiteNoise && comps[2].0 == RandomWalk && comps[3].0 == NaiveKey
    ensures Score(test, comps[..4], entropy) == Success([
              (Uniform, KL.ComputeFloat(test, comps[0].1, entropy)),
              (WhiteNoise, KL.ComputeFloat(test, comps[1].1, entropy)),
              (RandomWalk, KL.ComputeFloat(test, comps[2].1, entropy)),
              (NaiveKey, KL.ComputeFloat(test, comps[3].1, entropy))])
  {
    var c := comps[..4];
    var v0 := KL.ComputeFloat(test, comps[0].1, entropy);
    var v1 := KL.ComputeFloat(test, comps[1].1, entropy);
    var v2 := KL.ComputeFloat(test, comps[2].1, entropy);
    var v3 := KL.ComputeFloat(test, comps[3].1, entropy);
    assert c[..1][..0] == [];
    assert Score(test, c[..1], entropy) == Success([(Uniform, v0)]);
    assert c[..2][..1] == c[..1];
    assert Uniform != WhiteNoise && Uniform != RandomWalk && Uniform != NaiveKey;
    assert WhiteNoise != RandomWalk && WhiteNoise != NaiveKey && RandomWalk != NaiveKey;
    assert [(Uniform, v0)][1..] == [];
    assert Put([(Uniform, v0)], WhiteNoise, v1) == [(Uniform, v0), (WhiteNoise, v1)];
    assert Score(test, c[..2], entropy) == Success([(Uniform, v0), (WhiteNoise, v1)]);
    assert c[..3][..2] == c[..2];
    assert [(Uniform, v0), (WhiteNoise, v1)][1..] == [(WhiteNoise, v1)];
    assert Put([(WhiteNoise, v1)], RandomWalk, v2) == [(WhiteNoise, v1), (RandomWalk, v2)];
    assert Put([(Uniform, v0), (WhiteNoise, v1)], RandomWalk, v2) == [(Uniform, v0), (WhiteNoise, v1), (RandomWalk, v2)];
    assert Score(test, c[..3], entropy) == Success([(Uniform, v0), (WhiteNoise, v1), (RandomWalk, v2)]);
    assert c[..3] == c[..4][..3] && c[..4] == c;
    var d3 := [(Uniform, v0), (WhiteNoise, v1), (RandomWalk, v2)];
    assert d3[1..] == [(WhiteNoise, v1), (RandomWalk, v2)] && d3[1..][1..] == [(RandomWalk, v2)];
    assert Put([(RandomWalk, v2)], NaiveKey, v3) == [(RandomWalk, v2), (NaiveKey, v3)];
    assert Put(d3[1..], NaiveKey, v3) == [(WhiteNoise, v1), (RandomWalk, v2), (NaiveKey, v3)];
    assert Put(d3, NaiveKey, v3) == d3 + [(NaiveKey, v3)];
    assert c[..|c| - 1] == c[..3];
    assert Score(test, c, entropy) == Success(d3 + [(NaiveKey, v3)]);
    assert d3 + [(NaiveKey, v3)] == [(Uniform, v0), (WhiteNoise, v1), (RandomWalk, v2), (NaiveKey, v3)];
  }

  /** The raw dictionary is the computation over the baselines, then the forecasts. */
  lemma RawScoresUnfold(train: seq<Float>, test: seq<Float>, forecasts: seq<Comparison>,
                        seasonalPeriod: Option<int>, uniformDraw: seq<Float>,
                        whiteNoise: seq<Float>, entropy: KL.Entropy)
    returns (base: seq<Comparison>)
    requires RawScores(train, test, forecasts, seasonalPeriod, uniformDraw, whiteNoise, entropy).Success?
    ensures |test| > 0 && Naive(train, |test|).Success? && SeasonalBaseline(train, |test|, seasonalPeriod).Success?
    ensures SeasonalBaseline(train, |test|, seasonalPeriod).value.Some? == Truthy(seasonalPeriod)
    ensures base == Baselines(uniformDraw, whiteNoise, CumSum(whiteNoise), Naive(train, |test|).value,
                              SeasonalBaseline(train, |test|, seasonalPeriod).value)
    ensures Score(test, base + forecasts, entropy)
              == RawScores(train, test, forecasts, seasonalPeriod, uniformDraw, whiteNoise, entropy)
  {
    base := Baselines(uniformDraw, whiteNoise, CumSum(whiteNoise), Naive(train, |test|).value,
                      SeasonalBaseline(train, |test|, seasonalPeriod).value);
  }

  /** The baselines are built with the test segment's length, so the
      divergence accepts every one of them. */
  lemma BaselinesAccepted(test: seq<Float>, base: seq<Comparison>, j: nat)
    requires |test| > 0 && j < |base|
    requires forall i :: 0 <= i < |base| ==> |base[i].1| == |test|
    ensures KL.Accepts(test, base[j].1)
  {
  }

  /** `evaluate_forecast` raises before normalising exactly when the test
      segment is empty, its range overflows the uniform draw, the training
      set is empty, the seasonal-naive baseline indexes out of range, or the
      divergence refuses a forecast; the baselines themselves never make it
      raise. */
  lemma RawScoresFails(train: seq<Float>, test: seq<Float>, forecasts: seq<Comparison>, seasonalPeriod: Option<int>,
                       uniformDraw: seq<Float>, whiteNoise: seq<Float>, entropy: KL.Entropy)
    requires |uniformDraw| == |test| && |whiteNoise| == |test|
    ensures RawScores(train, test, forecasts, seasonalPeriod, uniformDraw, whiteNoise, entropy).Failure?
            <==> || |test| == 0 || !UniformDrawable(test) || |train| == 0
                 || SeasonalBaseline(train, |test|, seasonalPeriod).Failure?
                 || exists j :: 0 <= j < |forecasts| && !KL.Accepts(test, forecasts[j].1)
  {
    if |test| > 0 && UniformDrawable(test) && |train| > 0 && SeasonalBaseline(train, |test|, seasonalPeriod).Success? {
      var base := Baselines(uniformDraw, whiteNoise, CumSum(whiteNoise), Naive(train, |test|).value,
                            SeasonalBaseline(train, |test|, seasonalPeriod).value);
      var comps := base + forecasts;
      assert forall i :: 0 <= i < |base| ==> |base[i].1| == |test|;
      ScoreFails(test, comps, entropy);
      if exists j :: 0 <= j < |comps| && !KL.Accepts(test, comps[j].1) {
        var j :| 0 <= j < |comps| && !KL.Accepts(test, comps[j].1);
        if j < |base| {
          BaselinesAccepted(test, base, j);
        }
        assert comps[j] == forecasts[j - |base|];
      }
      if exists j :: 0 <= j < |forecasts| && !KL.Accepts(test, forecasts[j].1) {
        var j :| 0 <= j < |forecasts| && !KL.Accepts(test, forecasts[j].1);
        assert comps[|base| + j] == forecasts[j];
      }
    }
  }

  /** The baselines' own dictionary holds exactly the baseline keys, in the
      order they are inserted. */
  lemma BaselineDictionary(test: seq<Float>, base: seq<Comparison>, seasonal: bool, entropy: KL.Entropy)
    requires |test| > 0 && KeysOf(base) == BaselineKeys(seasonal)
    requires forall j :: 0 <= j < |base| ==> KL.Accepts(test, base[j].1)
    ensures Score(test, base, entropy).Success?
    ensures KeysOf(Score(test, base, entropy).value) == BaselineKeys(seasonal)
  {
    BaselineScores(test, base, entropy);
    if seasonal {
      var d4 := Score(test, base[..4], entropy).value;
      assert base[..|base| - 1] == base[..4];
      assert KeysOf(d4) == BaselineKeys(false);
      assert base[4].0 == SeasonalNaiveKey;
      PutKeys(d4, SeasonalNaiveKey, KL.ComputeFloat(test, base[4].1, entropy));
    } else {
      assert base[..4] == base;
    }
  }

  /** With the baselines in front, the dictionary opens with the baseline keys. */
  lemma BaselinesFirst(test: seq<Float>, base: seq<Comparison>, forecasts: seq<Comparison>, seasonal: bool,
                       entropy: KL.Entropy)
    requires |test| > 0 && KeysOf(base) == BaselineKeys(seasonal)
    requires Score(test, base + forecasts, entropy).Success?
    ensures Score(test, base, entropy).Success? && KeysOf(Score(test, base, entropy).value) == BaselineKeys(seasonal)
    ensures BaselineKeys(seasonal) <= KeysOf(Score(test, base + forecasts, entropy).value)
  {
    var comps := base + forecasts;
    ScoreFails(test, comps, entropy);
    forall j | 0 <= j < |base| ensures KL.Accepts(test, base[j].1) {
      assert comps[j] == base[j];
    }
    BaselineDictionary(test, base, seasonal, entropy);
    assert comps[..|base|] == base;
    ScoreKeepsInsertionOrder(test, comps, |base|, entropy);
  }

  /** The keys of the result: the baselines first, in the order they are
      inserted, `seasonal_naive` exactly when the period is truthy, then the
      forecast identifiers; each key once, and only the baselines when there
      are no forecasts. */
  lemma ResultKeys(train: seq<Float>, test: seq<Float>, forecasts: seq<Comparison>, seasonalPeriod: Option<int>,
                   normalize: bool, uniformDraw: seq<Float>, whiteNoise: seq<Float>, entropy: KL.Entropy)
    requires Normalizable(train, test, forecasts, seasonalPeriod, normalize, uniformDraw, whiteNoise, entropy)
    requires ForecastScores(train, test, forecasts, seasonalPeriod, normalize, uniformDraw, whiteNoise, entropy).Success?
    ensures var d := ForecastScores(train, test, forecasts, seasonalPeriod, normalize, uniformDraw, whiteNoise, entropy).value;
            && DistinctKeys(d)
            && BaselineKeys(Truthy(seasonalPeriod)) <= KeysOf(d)
            && (forall k :: Lookup(d, k).Some? <==> k in BaselineKeys(Truthy(seasonalPeriod)) || k in KeysOf(forecasts))
            && (forecasts == [] ==> KeysOf(d) == BaselineKeys(Truthy(seasonalPeriod)))
  {
    var raw := RawScores(train, test, forecasts, seasonalPeriod, uniformDraw, whiteNoise, entropy).value;
    var base := RawScoresUnfold(train, test, forecasts, seasonalPeriod, uniformDraw, whiteNoise, entropy);
    var comps := base + forecasts;
    BaselinesFirst(test, base, forecasts, Truthy(seasonalPeriod), entropy);
    RawKeys(test, base, forecasts, Truthy(seasonalPeriod), entropy);
    if forecasts == [] {
      assert comps == base;
    }
    var d := ForecastScores(train, test, forecasts, seasonalPeriod, normalize, uniformDraw, whiteNoise, entropy).value;
    if normalize {
      var u := Lookup(raw, Uniform).value.x;
      assert d == Divide(raw, u);
      forall k ensures Lookup(d, k).Some? <==> Lookup(raw, k).Some? {
        LookupDivide(raw, u, k);
      }
      forall i, j | 0 <= i < j < |d| ensures d[i].0 != d[j].0 {
        assert KeysOf(d)[i] == raw[i].0 && KeysOf(d)[j] == raw[j].0;
      }
    }
  }

  /** The keys of the raw dictionary: distinct, and exactly the baselines'
      and the forecasts'. */
  lemma RawKeys(test: seq<Float>, base: seq<Comparison>, forecasts: seq<Comparison>, seasonal: bool,
                entropy: KL.Entropy)
    requires |test| > 0 && KeysOf(base) == BaselineKeys(seasonal)
    requires Score(test, base + forecasts, entropy).Success?
    ensures DistinctKeys(Score(test, base + forecasts, entropy).value)
    ensures forall k :: Lookup(Score(test, base + forecasts, entropy).value, k).Some? <==>
                          k in BaselineKeys(seasonal) || k in KeysOf(forecasts)
  {
    ScoreKeys(test, base + forecasts, entropy);
    KeysOfConcat(base, forecasts);
  }

  /** The last forecast under a key is the last comparison under it once the
      baselines are put in front. */
  lemma LastForecastIsLastComparison(base: seq<Comparison>, forecasts: seq<Comparison>, j: nat)
    requires j < |forecasts| && LastWithKey(forecasts, j)
    ensures (base + forecasts)[|base| + j] == forecasts[j]
    ensures LastWithKey(base + forecasts, |base| + j)
  {
    var comps := base + forecasts;
    forall l | |base| + j < l < |comps| ensures comps[l].0 != comps[|base| + j].0 {
      assert comps[l] == forecasts[l - |base|];
    }
  }

  /** Without a forecast named "uniform" the uniform baseline is the last
      comparison under that key. */
  lemma UniformIsLastComparison(base: seq<Comparison>, forecasts: seq<Comparison>, seasonal: bool)
    requires KeysOf(base) == BaselineKeys(seasonal) && Uniform !in KeysOf(forecasts)
    ensures (base + forecasts)[0] == base[0]
    ensures LastWithKey(base + forecasts, 0)
  {
    var comps := base + forecasts;
    KeysOfConcat(base, forecasts);
    assert KeysOf(comps) == BaselineKeys(seasonal) + KeysOf(forecasts);
    forall l | 0 < l < |comps| ensures comps[l].0 != comps[0].0 {
      assert KeysOf(comps)[l] == comps[l].0;
      if l >= |base| {
        assert KeysOf(forecasts)[l - |base|] == comps[l].0;
      }
    }
  }

  /** A later forecast overwrites an earlier one with the same identifier, and
      a forecast named like a baseline overwrites that baseline; otherwise the
      "uniform" entry is the divergence from the uniform draw. */
  lemma LaterForecastWins(train: seq<Float>, test: seq<Float>, forecasts: seq<Comparison>, seasonalPeriod: Option<int>,
                          uniformDraw: seq<Float>, whiteNoise: seq<Float>, entropy: KL.Entropy)
    requires RawScores(train, test, forecasts, seasonalPeriod, uniformDraw, whiteNoise, entropy).Success?
    ensures |test| > 0
    ensures forall j :: 0 <= j < |forecasts| && LastWithKey(forecasts, j) ==>
              KL.Accepts(test, forecasts[j].1) &&
              Lookup(RawScores(train, test, forecasts, seasonalPeriod, uniformDraw, whiteNoise, entropy).value, forecasts[j].0)
                == Some(KL.ComputeFloat(test, forecasts[j].1, entropy))
    ensures Uniform !in KeysOf(forecasts) ==>
              KL.Accepts(test, uniformDraw) &&
              Lookup(RawScores(train, test, forecasts, seasonalPeriod, uniformDraw, whiteNoise, entropy).value, Uniform)
                == Some(KL.ComputeFloat(test, uniformDraw, entropy))
  {
    var base := RawScoresUnfold(train, test, forecasts, seasonalPeriod, uniformDraw, whiteNoise, entropy);
    LaterComparisonWins(test, base + forecasts, entropy);
    forall j | 0 <= j < |forecasts| && LastWithKey(forecasts, j)
      ensures KL.Accepts(test, forecasts[j].1) &&
              Lookup(Score(test, base + forecasts, entropy).value, forecasts[j].0)
                == Some(KL.ComputeFloat(test, forecasts[j].1, entropy))
    {
      LastForecastIsLastComparison(base, forecasts, j);
    }
    if Uniform !in KeysOf(forecasts) {
      UniformIsLastComparison(base, forecasts, Truthy(seasonalPeriod));
    }
  }

  /** Against a test segment that reads as all zero every divergence is the
      float `0.0`, whichever series it is compared with. */
  lemma {:induction false} AllZeroTestScoresZero(test: seq<Float>, comps: seq<Comparison>, entropy: KL.Entropy)
    requires |test| > 0 && AllEq(test, 0.0)
    requires Score(test, comps, entropy).Success?
    ensures forall k :: Lookup(Score(test, comps, entropy).value, k).Some? ==>
              Lookup(Score(test, comps, entropy).value, k) == Some(Fin(0.0))
  {
    if comps != [] {
      var init := comps[..|comps| - 1];
      var last := comps[|comps| - 1];
      AllZeroTestScoresZero(test, init, entropy);
      var d := Score(test, init, entropy).value;
      assert KL.Compute(test, last.1).value.Zero?;
      PutLookup(d, last.0, Fin(0.0));
    }
  }

  /** Without `normalize` the dictionary is returned as built, whatever it holds. */
  lemma WithoutNormalizeIsRaw(train: seq<Float>, test: seq<Float>, forecasts: seq<Comparison>,
                              seasonalPeriod: Option<int>, uniformDraw: seq<Float>, whiteNoise: seq<Float>,
                              entropy: KL.Entropy)
    ensures ForecastScores(train, test, forecasts, seasonalPeriod, false, uniformDraw, whiteNoise, entropy)
              == RawScores(train, test, forecasts, seasonalPeriod, uniformDraw, whiteNoise, entropy)
  {
  }

  /** With `normalize`, a test segment that reads as all zero makes the "uniform" entry the float
      `0.0`, and dividing by it raises; otherwise every value is divided by
      the raw "uniform" value, so "uniform" itself becomes 1, and the keys
      and their order stay. */
  lemma NormalizationDividesByUniform(train: seq<Float>, test: seq<Float>, forecasts: seq<Comparison>,
                                      seasonalPeriod: Option<int>, uniformDraw: seq<Float>, whiteNoise: seq<Float>,
                                      entropy: KL.Entropy)
    requires RawScores(train, test, forecasts, seasonalPeriod, uniformDraw, whiteNoise, entropy).Success?
    requires !AllEq(test, 0.0) ==>
               UsableNormalizer(RawScores(train, test, forecasts, seasonalPeriod, uniformDraw, whiteNoise, entropy).value)
    ensures AllEq(test, 0.0) ==>
              && Lookup(RawScores(train, test, forecasts, seasonalPeriod, uniformDraw, whiteNoise, entropy).value, Uniform)
                   == Some(Fin(0.0))
              && ForecastScores(train, test, forecasts, seasonalPeriod, true, uniformDraw, whiteNoise, entropy)
                   == Failure(ZeroDivision)
    ensures !AllEq(test, 0.0) ==>
              var raw := RawScores(train, test, forecasts, seasonalPeriod, uniformDraw, whiteNoise, entropy).value;
              var d := ForecastScores(train, test, forecasts, seasonalPeriod, true, uniformDraw, whiteNoise, entropy).value;
              && KeysOf(d) == KeysOf(raw)
              && Lookup(d, Uniform) == Some(Fin(1.0))
              && forall k :: Lookup(raw, k).Some? ==>
                   Lookup(d, k) == Some(DivBy(Lookup(raw, k).value, Lookup(raw, Uniform).value.x))
  {
    var raw := RawScores(train, test, forecasts, seasonalPeriod, uniformDraw, whiteNoise, entropy).value;
    if AllEq(test, 0.0) {
      var base := RawScoresUnfold(train, test, forecasts, seasonalPeriod, uniformDraw, whiteNoise, entropy);
      RawKeys(test, base, forecasts, Truthy(seasonalPeriod), entropy);
      assert Lookup(raw, Uniform).Some?;
      AllZeroTestScoresZero(test, base + forecasts, entropy);
    } else {
      assert UsableNormalizer(raw);
      var u := Lookup(raw, Uniform).value.x;
      assert u / u == 1.0;
      forall k ensures Lookup(Divide(raw, u), k) == if Lookup(raw, k).Some? then Some(DivBy(Lookup(raw, k).value, u)) else None {
        LookupDivide(raw, u, k);
      }
    }
  }

  /** How the comparisons done so far split around the next one. */
  lemma SplitAt(done: seq<Comparison>, fs: seq<Comparison>, i: nat)
    requires i < |fs|
    ensures done + fs[..i + 1] == (done + fs[..i]) + [fs[i]]
    ensures done + fs == (done + fs[..i + 1]) + fs[i + 1..]
  {
    assert fs[..i + 1] == fs[..i] + [fs[i]];
    assert fs == fs[..i + 1] + fs[i + 1..];
  }

  /** The loop over the forecasts: each one's divergence stored under its
      identifier, in list order, after the dictionary built so far. */
  method ScoreForecasts(test: Serie, forecasts: seq<Serie>, returned: Scores, ghost done: seq<Comparison>,
                        entropy: KL.Entropy) returns (r: Result<Scores, EvalError>)
    requires |test.values| > 0
    requires Score(test.values, done, entropy) == Success(returned)
    ensures r == Score(test.values, done + Identified(forecasts), entropy)
  {
    ghost var fs := Identified(forecasts);
    assert done + fs[..0] == done;
    var d := returned;
    for i := 0 to |forecasts|
      invariant Score(test.values, done + fs[..i], entropy) == Success(d)
    {
      var forecast := forecasts[i];
      SplitAt(done, fs, i);
      ScoreSnoc(test.values, done + fs[..i], fs[i], entropy);
      var div := KL.Compute(test.values, forecast.values);
      if div.Failure? {
        ScoreFailureSticks(test.values, done + fs[..i + 1], fs[i + 1..], entropy);
        return Failure(DivergenceFailed(div.error));
      }
      d := Put(d, forecast.identifier, div.value.Value(entropy));
    }
    assert fs[..|forecasts|] == fs;
    return Success(d);
  }

  /** `evaluate_forecast`: the statistics of the test segment, the baselines,
      the dictionary literal of the four baseline divergences, the
      seasonal-naive entry when the period is truthy, one entry per forecast in
      list order, then the optional normalisation. */
  method EvaluateForecast(train: Serie, test: Serie, forecasts: seq<Serie>, seasonalPeriod: Option<int> := None, normalize: bool := false,
                          uniformDraw: seq<Float>, whiteNoise: seq<Float>, entropy: KL.Entropy)
    returns (r: Result<Scores, EvalError>)
    requires |uniformDraw| == |test.values| && |whiteNoise| == |test.values|
    requires Normalizable(train.values, test.values, Identified(forecasts), seasonalPeriod, normalize,
                          uniformDraw, whiteNoise, entropy)
    ensures r == ForecastScores(train.values, test.values, Identified(forecasts), seasonalPeriod, normalize,
                                uniformDraw, whiteNoise, entropy)
  {
    if |test.values| == 0 {
      return Failure(EmptyTestSet);
    }
    if !UniformDrawable(test.values) {
      return Failure(DrawOverflow);
    }
    var size := |test.values|;
    var randomWalk := CumSum(whiteNoise);
    var naive := Naive(train.values, size);
    if naive.Failure? {
      return Failure(naive.error);
    }
    var seasonal := SeasonalBaseline(train.values, size, seasonalPeriod);
    if seasonal.Failure? {
      return Failure(seasonal.error);
    }
    ghost var base := Baselines(uniformDraw, whiteNoise, randomWalk, naive.value, seasonal.value);
    var returned: Scores := [
      (Uniform, KL.ComputeFloat(test.values, uniformDraw, entropy)),
      (WhiteNoise, KL.ComputeFloat(test.values, whiteNoise, entropy)),
      (RandomWalk, KL.ComputeFloat(test.values, randomWalk, entropy)),
      (NaiveKey, KL.ComputeFloat(test.values, naive.value, entropy))];
    BaselineScores(test.values, base, entropy);
    if seasonal.value.Some? {
      returned := Put(returned, SeasonalNaiveKey, KL.ComputeFloat(test.values, seasonal.value.value, entropy));
      assert base[..|base| - 1] == base[..4];
    } else {
      assert base[..4] == base;
    }
    var scored := ScoreForecasts(test, forecasts, returned, base, entropy);
    if scored.Failure? || !normalize {
      return scored;
    }
    if AllEq(test.values, 0.0) {
      return Failure(ZeroDivision);
    }
    return Success(Divide(scored.value, Lookup(scored.value, Uniform).value.x));
  }
}
