/** The `Serie` value object of kl_evolution/core/data_objects/serie.py: a named,
    indexed sequence of floats, its NaN-ignoring aggregates, its equality to a
    constant and its shift. */
module DataObjects {
  import opened Wrappers
  import opened Floats

  /** The two ValueErrors `__post_init__` raises. */
  datatype SerieError = MissingSeasonalPeriod | IndexLengthMismatch

  /** numpy's ValueError for a reduction over an empty array. */
  datatype ReductionError = EmptyReduction

  /** Python truthiness of an optional integer: `None` and `0` are false. */
  predicate Truthy(p: Option<int>)
  {
    p.Some? && p.value != 0
  }

  /** `np.arange(n)`, the default index. */
  function Range(n: nat): (r: seq<int>)
    ensures |r| == n
    ensures forall i :: 0 <= i < n ==> r[i] == i
  {
    seq(n, i => i)
  }

  /** The error `__post_init__` raises for `n` values, if any; the seasonal
      period is checked before the index. */
  function ConstructionError(n: nat, index: Option<seq<int>>, deseasonalize: bool,
                             seasonalPeriod: Option<int>): (e: Option<SerieError>)
    ensures e.None? <==> (deseasonalize ==> Truthy(seasonalPeriod)) && (index.Some? ==> |index.value| == n)
    ensures e == Some(MissingSeasonalPeriod) <==> deseasonalize && !Truthy(seasonalPeriod)
    ensures e == Some(IndexLengthMismatch) ==> index.Some? && |index.value| != n
  {
    if deseasonalize && !Truthy(seasonalPeriod) then Some(MissingSeasonalPeriod)
    else if index.Some? && |index.value| != n then Some(IndexLengthMismatch)
    else None
  }

  predicate AllNaN(s: seq<Float>)
  {
    forall i :: 0 <= i < |s| ==> s[i].NaN?
  }

  /** `np.fmin`: the smaller of two floats, NaN only if both are. */
  function Fmin(a: Float, b: Float): Float
  {
    if a.NaN? then b else if b.NaN? then a else if LessEq(a, b) then a else b
  }

  /** `np.fmax`: the larger of two floats, NaN only if both are. */
  function Fmax(a: Float, b: Float): Float
  {
    if a.NaN? then b else if b.NaN? then a else if LessEq(a, b) then b else a
  }

  /** `np.nanmin`, behind `Serie.__min__`. */
  function NanMin(s: seq<Float>): (r: Result<Float, ReductionError>)
    ensures r.Failure? <==> |s| == 0
    ensures r.Success? && AllNaN(s) ==> r.value.NaN?
    ensures r.Success? && !AllNaN(s) ==>
      && !r.value.NaN?
      && r.value in s
      && forall i :: 0 <= i < |s| && !s[i].NaN? ==> LessEq(r.value, s[i])
  {
    if |s| == 0 then Failure(EmptyReduction)
    else if |s| == 1 then Success(s[0])
    else Success(Fmin(s[0], NanMin(s[1..]).value))
  }

  /** `np.nanmax`, behind `Serie.__max__`. */
  function NanMax(s: seq<Float>): (r: Result<Float, ReductionError>)
    ensures r.Failure? <==> |s| == 0
    ensures r.Success? && AllNaN(s) ==> r.value.NaN?
    ensures r.Success? && !AllNaN(s) ==>
      && !r.value.NaN?
      && r.value in s
      && forall i :: 0 <= i < |s| && !s[i].NaN? ==> LessEq(s[i], r.value)
  {
    if |s| == 0 then Failure(EmptyReduction)
    else if |s| == 1 then Success(s[0])
    else Success(Fmax(s[0], NanMax(s[1..]).value))
  }

  /** `Serie.__all_eq__(c)`: every value, read through `nan_to_num`, equals `c`.
      A NaN therefore counts as 0, an infinity as the largest float of its sign,
      and an empty series is equal to everything. */
  predicate AllEq(s: seq<Float>, c: real): (b: bool)
    ensures |s| == 0 ==> b
    ensures b <==> forall i :: 0 <= i < |s| ==>
                     && (s[i].Fin? ==> s[i].x == c)
                     && (s[i].NaN? ==> c == 0.0)
                     && (s[i].PosInf? ==> c == MaxFinite)
                     && (s[i].NegInf? ==> c == -MaxFinite)
  {
    forall i :: 0 <= i < |s| ==> NanToNum(s[i]) == c
  }

  /** Whether `np.random.uniform(low=nanmin(s), high=nanmax(s))` draws: numpy
      raises OverflowError unless `high - low` is a finite float, so both
      bounds must be finite and at most the largest float apart. A series
      holding an infinity, or nothing but NaN, therefore has no draw. */
  predicate UniformDrawable(s: seq<Float>): (b: bool)
    ensures b ==> !AllNaN(s) && forall i :: 0 <= i < |s| ==> !s[i].PosInf? && !s[i].NegInf?
  {
    && |s| > 0
    && NanMin(s).value.Fin?
    && NanMax(s).value.Fin?
    && NanMax(s).value.x - NanMin(s).value.x <= MaxFinite
  }

  /** `np.roll(s, k)`: entry `i` is taken from position `i - k`, cyclically. */
  function Roll(s: seq<Float>, k: int): (r: seq<Float>)
    ensures |r| == |s|
  {
    seq(|s|, i requires 0 <= i < |s| => s[(i - k) % |s|])
  }

  /** How many leading entries the slice `[:k]` covers in a sequence of length `n`. */
  function MaskLength(n: nat, k: int): (m: nat)
    ensures m <= n
  {
    if k >= 0 then (if k <= n then k else n)
    else if n + k > 0 then n + k
    else 0
  }

  /** The values of `Serie.shift(k)`: rolled by `k`, then NaN written over `[:k]`. */
  function Shifted(s: seq<Float>, k: int): (r: seq<Float>)
    ensures |r| == |s|
  {
    var rolled := Roll(s, k);
    seq(|s|, i requires 0 <= i < |s| => if i < MaskLength(|s|, k) then NaN else rolled[i])
  }

  /** For a non-negative shift the first `k` entries are NaN and the others are
      the original values moved `k` places to the right. */
  lemma ShiftedValues(s: seq<Float>, k: nat)
    ensures |Shifted(s, k)| == |s|
    ensures forall i :: 0 <= i < |s| ==> Shifted(s, k)[i] == if i < k then NaN else s[i - k]
  {
    forall i | 0 <= i < |s|
      ensures Shifted(s, k)[i] == if i < k then NaN else s[i - k]
    {
      var m := MaskLength(|s|, k);
      if i >= k {
        assert m <= i;
        assert (i - k) % |s| == i - k;
        assert Roll(s, k)[i] == s[i - k];
      } else {
        assert i < m;
      }
    }
  }

  /** A shift by the length or more leaves nothing but NaN. */
  lemma ShiftBeyondLength(s: seq<Float>, k: int)
    requires k >= |s|
    ensures AllNaN(Shifted(s, k))
  {
    assert MaskLength(|s|, k) == |s|;
  }

  /** A shift by zero changes nothing. */
  lemma ShiftByZero(s: seq<Float>)
    ensures Shifted(s, 0) == s
  {
    ShiftedValues(s, 0);
  }

  /** A class whose instances the analyzer mutates in place. */
  class Serie {
    var values: seq<Float>
    var index: seq<int>
    var identifier: Option<string>
    var detrend: bool
    var deseasonalize: bool
    var seasonalPeriod: Option<int>

    /** What a successful construction guarantees. */
    ghost predicate Valid()
      reads this
    {
      |index| == |values| && (deseasonalize ==> Truthy(seasonalPeriod))
    }

    /** `Serie(...)` on arguments `__post_init__` accepts. */
    constructor (values: seq<Float>, index: Option<seq<int>> := None, identifier: Option<string> := None,
                 detrend: bool := false, deseasonalize: bool := false, seasonalPeriod: Option<int> := None)
      requires ConstructionError(|values|, index, deseasonalize, seasonalPeriod).None?
      ensures Valid()
      ensures this.values == values
      ensures this.index == if index.Some? then index.value else Range(|values|)
      ensures this.identifier == identifier && this.detrend == detrend
      ensures this.deseasonalize == deseasonalize && this.seasonalPeriod == seasonalPeriod
    {
      this.values := values;
      this.identifier := identifier;
      this.detrend := detrend;
      this.deseasonalize := deseasonalize;
      this.seasonalPeriod := seasonalPeriod;
      this.index := if index.Some? then index.value else Range(|values|);
    }

    /** `Serie(...)` with its validation: the error `__post_init__` raises, or a
        fresh valid series holding the arguments. */
    static method Create(values: seq<Float>, index: Option<seq<int>> := None, identifier: Option<string> := None,
                         detrend: bool := false, deseasonalize: bool := false, seasonalPeriod: Option<int> := None)
      returns (r: Result<Serie, SerieError>)
      ensures r.Failure? <==> ConstructionError(|values|, index, deseasonalize, seasonalPeriod).Some?
      ensures r.Failure? ==> ConstructionError(|values|, index, deseasonalize, seasonalPeriod) == Some(r.error)
      ensures r.Success? ==> fresh(r.value) && r.value.Valid()
      ensures r.Success? ==> r.value.values == values && |r.value.index| == |values|
      ensures r.Success? && index.None? ==> r.value.index == Range(|values|)
      ensures r.Success? && index.Some? ==> r.value.index == index.value
      ensures r.Success? ==> r.value.identifier == identifier && r.value.detrend == detrend
      ensures r.Success? ==> r.value.deseasonalize == deseasonalize && r.value.seasonalPeriod == seasonalPeriod
    {
      var e := ConstructionError(|values|, index, deseasonalize, seasonalPeriod);
      if e.Some? {
        return Failure(e.value);
      }
      var s := new Serie(values, index, identifier, detrend, deseasonalize, seasonalPeriod);
      return Success(s);
    }

    /** `__len__`: the number of values, which for a valid series is also the
        number of index labels. */
    function Length(): (n: nat)
      reads this
      ensures n == |values|
      ensures Valid() ==> n == |index|
    {
      |values|
    }

    /** `shift(k)`: a fresh series with the shifted values, the same index and
        identifier, and default flags; the receiver is left as it was. */
    method Shift(k: int) returns (s: Serie)
      requires Valid()
      ensures fresh(s) && s.Valid()
      ensures s.values == Shifted(values, k)
      ensures s.index == index && s.identifier == identifier
      ensures !s.detrend && !s.deseasonalize && s.seasonalPeriod.None?
    {
      var rolled := Roll(values, k);
      var a := new Float[|rolled|](i requires 0 <= i < |rolled| => rolled[i]);
      var m := MaskLength(a.Length, k);
      for j := 0 to m
        invariant forall i :: 0 <= i < j ==> a[i] == NaN
        invariant forall i :: j <= i < a.Length ==> a[i] == rolled[i]
      {
        a[j] := NaN;
      }
      assert a[..] == Shifted(values, k);
      s := new Serie(a[..], Some(index), identifier);
    }
  }
}
