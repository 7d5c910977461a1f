/** `ShiftedSerieAnalyzer` of kl_evolution/core/features/ts_analyzer.py: the
    divergence between a series and its own shift, for every lag up to a
    horizon, with the temporary offset of flagged series and the optional
    normalisation by one reference divergence. */
module TsAnalyzer {
  import opened Wrappers
  import opened Floats
  import opened DataObjects
  import KL = KLDivergence

  /** The constant added to a detrended or deseasonalised series. */
  const Offset: real := 1000.0

  /** The identifier of the analyzer's output series. */
  const ResultIdentifier: string := "KL divergences over shifts"

  /** The ValueError "The values should be non-empty"; numpy's OverflowError
      when the uniform draw's bounds are not finite; the ZeroDivisionError of
      dividing the float `0.0` by the reference `0.0`. */
  datatype AnalyzerError = TooShort | RangeOverflow | ZeroDivision

  /** The values the divergences are computed on: each one increased by the
      offset when the series is flagged, unchanged otherwise. */
  function Stabilized(values: seq<Float>, modified: bool): (r: seq<Float>)
    ensures |r| == |values|
    ensures !modified ==> r == values
    ensures modified ==> forall i :: 0 <= i < |values| ==> r[i] == Plus(values[i], Fin(Offset))
  {
    if modified then seq(|values|, i requires 0 <= i < |values| => Plus(values[i], Fin(Offset)))
    else values
  }

  /** Entry `h - 1` is the divergence between the values and their shift by
      `h`, for `h` from 1 to the horizon. */
  function LagDivergences(values: seq<Float>, maxHorizon: int, entropy: KL.Entropy): (r: seq<Float>)
    requires |values| > 0
    ensures |r| == if maxHorizon > 0 then maxHorizon else 0
  {
    seq(if maxHorizon > 0 then maxHorizon else 0,
        i requires 0 <= i => KL.ComputeFloat(values, Shifted(values, i + 1), entropy))
  }

  /** The reference: the branch `compute` takes for the values against the
      uniform draw, which has their length. */
  function Reference(values: seq<Float>, draw: seq<Float>): (r: KL.Divergence)
    requires |values| > 0 && |draw| == |values|
    ensures r.Zero? <==> AllEq(values, 0.0)
    ensures r.Infinite? <==> !AllEq(values, 0.0) && AllEq(draw, 0.0)
    ensures r.General? ==> r == KL.General(values, draw)
  {
    KL.Compute(values, draw).value
  }

  /** The draw has the series' length, and unless the reference is the float
      `0.0` of an all-zero series, it is a finite non-zero divisor. */
  predicate UsableReference(values: seq<Float>, draw: seq<Float>, entropy: KL.Entropy)
  {
    && |values| > 0
    && |draw| == |values|
    && (!Reference(values, draw).Zero? ==>
          Reference(values, draw).Value(entropy).Fin? && Reference(values, draw).Value(entropy).x != 0.0)
  }

  /** Every divergence divided by the one shared reference. */
  function Normalized(kls: seq<Float>, ref: real): (r: seq<Float>)
    requires ref != 0.0
    ensures |r| == |kls|
  {
    seq(|kls|, i requires 0 <= i < |kls| => DivBy(kls[i], ref))
  }

  /** What `compute` returns for a series with these values and flags. */
  function Analysis(values: seq<Float>, modified: bool, maxHorizon: int, normalized: bool,
                    draw: seq<Float>, entropy: KL.Entropy): (r: Result<seq<Float>, AnalyzerError>)
    requires normalized && |values| > 1 && maxHorizon > 0 && UniformDrawable(Stabilized(values, modified)) ==>
               UsableReference(Stabilized(values, modified), draw, entropy)
    ensures r.Failure? <==>
              || |values| <= 1
              || (normalized && !UniformDrawable(Stabilized(values, modified)))
              || (normalized && maxHorizon > 0 && AllEq(Stabilized(values, modified), 0.0))
    ensures r.Failure? ==> (r.error == TooShort <==> |values| <= 1)
    ensures r.Failure? && r.error == ZeroDivision ==>
              normalized && UniformDrawable(Stabilized(values, modified)) && AllEq(Stabilized(values, modified), 0.0)
    ensures r.Success? ==> |r.value| == if maxHorizon > 0 then maxHorizon else 0
    ensures r.Success? && !normalized ==> r.value == LagDivergences(Stabilized(values, modified), maxHorizon, entropy)
    ensures r.Success? && normalized && maxHorizon > 0 ==>
              && UsableReference(Stabilized(values, modified), draw, entropy)
              && !Reference(Stabilized(values, modified), draw).Zero?
              && r.value == Normalized(LagDivergences(Stabilized(values, modified), maxHorizon, entropy),
                                       Reference(Stabilized(values, modified), draw).Value(entropy).x)
  {
    if |values| <= 1 then Failure(TooShort)
    else
      var vs := Stabilized(values, modified);
      var kls := LagDivergences(vs, maxHorizon, entropy);
      if !normalized then Success(kls)
      else if !UniformDrawable(vs) then Failure(RangeOverflow)
      else if |kls| == 0 then Success(kls)
      else
        var ref := Reference(vs, draw);
        if ref.Zero? then Failure(ZeroDivision)
        else Success(Normalized(kls, ref.Value(entropy).x))
  }

  /** A lag at or beyond the length compares the series with nothing but NaN:
      the divergence is `+inf`, or `0.0` when the series reads as all zero. */
  lemma LagBeyondLength(values: seq<Float>, maxHorizon: int, entropy: KL.Entropy, h: int)
    requires |values| > 0
    requires |values| <= h <= maxHorizon
    ensures LagDivergences(values, maxHorizon, entropy)[h - 1]
            == if AllEq(values, 0.0) then Fin(0.0) else PosInf
  {
    var q := Shifted(values, h);
    ShiftBeyondLength(values, h);
    assert AllEq(q, 0.0) by {
      forall i | 0 <= i < |q| ensures NanToNum(q[i]) == 0.0 {
        assert q[i].NaN?;
      }
    }
  }

  /** A series that reads as all zero has divergence `0.0` at every lag. */
  lemma AllZeroSerie(values: seq<Float>, maxHorizon: int, entropy: KL.Entropy)
    requires |values| > 0
    requires AllEq(values, 0.0)
    ensures forall i :: 0 <= i < |LagDivergences(values, maxHorizon, entropy)| ==>
              LagDivergences(values, maxHorizon, entropy)[i] == Fin(0.0)
  {
  }

  /** Normalisation can be undone: a finite entry times the reference gives
      back the raw divergence, and NaN and the infinities stay what they were,
      up to the reference's sign. */
  lemma NormalizedScalesBack(kls: seq<Float>, ref: real)
    requires ref != 0.0
    ensures forall i :: 0 <= i < |kls| && kls[i].Fin? ==>
              Normalized(kls, ref)[i].Fin? && Normalized(kls, ref)[i].x * ref == kls[i].x
    ensures forall i :: 0 <= i < |kls| && !kls[i].Fin? ==>
              Normalized(kls, ref)[i] == if kls[i].NaN? || ref > 0.0 then kls[i]
                                         else if kls[i].PosInf? then NegInf else PosInf
  {
    forall i | 0 <= i < |kls| && kls[i].Fin?
      ensures Normalized(kls, ref)[i].x * ref == kls[i].x
    {
      assert Normalized(kls, ref)[i] == Fin(kls[i].x / ref);
    }
  }

  /** A flagged series whose values are all -1000 reads as all zero once
      offset, so its reference is the float `0.0`: with normalisation and at
      least one lag, the division raises. */
  lemma OffsetToZeroRaises(values: seq<Float>, maxHorizon: int, draw: seq<Float>, entropy: KL.Entropy)
    requires |values| > 1 && maxHorizon > 0 && |draw| == |values|
    requires forall i :: 0 <= i < |values| ==> values[i] == Fin(-Offset)
    ensures Analysis(values, true, maxHorizon, true, draw, entropy) == Failure(ZeroDivision)
  {
    var vs := Stabilized(values, true);
    assert forall i :: 0 <= i < |vs| ==> vs[i] == Fin(0.0);
    assert AllEq(vs, 0.0);
    assert NanMin(vs).value in vs && NanMax(vs).value in vs;
  }

  /** With normalisation, a series holding an infinity, which the offset
      keeps, stops at the uniform draw. */
  lemma InfiniteValueOverflows(values: seq<Float>, modified: bool, maxHorizon: int, draw: seq<Float>,
                               entropy: KL.Entropy)
    requires |values| > 1
    requires exists i :: 0 <= i < |values| && (values[i].PosInf? || values[i].NegInf?)
    ensures Analysis(values, modified, maxHorizon, true, draw, entropy) == Failure(RangeOverflow)
  {
    var vs := Stabilized(values, modified);
    var i :| 0 <= i < |values| && (values[i].PosInf? || values[i].NegInf?);
    assert vs[i].PosInf? || vs[i].NegInf?;
  }

  class ShiftedSerieAnalyzer {
    const maxHorizon: int
    const normalized: bool

    constructor (maxHorizon: int, normalized: bool := true)
      ensures this.maxHorizon == maxHorizon && this.normalized == normalized
    {
      this.maxHorizon := maxHorizon;
      this.normalized := normalized;
    }

    /** `check_if_serie_is_not_empty`: more than one value, which is also
        enough for the bounds of the reference draw to exist. */
    static predicate CheckIfSerieIsNotEmpty(serie: Serie): (b: bool)
      reads serie
      ensures b <==> |serie.values| >= 2
      ensures b ==> NanMin(serie.values).Success? && NanMax(serie.values).Success?
    {
      serie.Length() > 1
    }

    /** `__is_modified`: the series is detrended or deseasonalised, the only
        case in which `compute` offsets it. */
    static predicate IsModified(serie: Serie): (b: bool)
      reads serie
      ensures b <==> serie.detrend || serie.deseasonalize
      ensures !b ==> Stabilized(serie.values, b) == serie.values
    {
      serie.deseasonalize || serie.detrend
    }

    /** `__modify_serie_values`: overwrites the series' values with the
        offset ones and returns a copy of what they were. */
    static method ModifySerieValues(serie: Serie) returns (original: seq<Float>)
      modifies serie`values
      ensures original == old(serie.values)
      ensures serie.values == Stabilized(original, true)
      ensures serie.Valid() <==> old(serie.Valid())
    {
      original := serie.values;
      serie.values := Stabilized(serie.values, true);
    }

    /** `__compute_kl_for_shifts`: the divergence between the series and a
        fresh series built from its values and shifted by `h`, for `h` from 1
        to the horizon in increasing order. */
    method ComputeKlForShifts(serie: Serie, entropy: KL.Entropy) returns (kls: seq<Float>)
      requires |serie.values| > 0
      ensures kls == LagDivergences(serie.values, maxHorizon, entropy)
    {
      kls := [];
      var shift := 1;
      while shift <= maxHorizon
        invariant 1 <= shift <= (if maxHorizon > 0 then maxHorizon + 1 else 1)
        invariant |kls| == shift - 1
        invariant forall i :: 0 <= i < |kls| ==>
                    kls[i] == KL.ComputeFloat(serie.values, Shifted(serie.values, i + 1), entropy)
      {
        var base := new Serie(serie.values);
        var shifted := base.Shift(shift);
        var d := KL.Compute(serie.values, shifted.values);
        kls := kls + [d.value.Value(entropy)];
        shift := shift + 1;
      }
    }

    /** `compute`: validates the length, offsets a flagged series in place,
        sweeps the lags, optionally normalises, restores the caller's values
        and wraps the divergences in a fresh series. The caller's series is
        written only when it is flagged. There is no `finally`: when the draw
        or the division raises, a flagged series keeps its offset values. */
    method Compute(serie: Serie, uniformDraw: seq<Float>, entropy: KL.Entropy)
      returns (r: Result<Serie, AnalyzerError>)
      requires normalized && |serie.values| > 1 && maxHorizon > 0
               && UniformDrawable(Stabilized(serie.values, IsModified(serie))) ==>
                 UsableReference(Stabilized(serie.values, IsModified(serie)), uniformDraw, entropy)
      modifies if IsModified(serie) then {serie} else {}
      ensures serie.index == old(serie.index) && serie.identifier == old(serie.identifier)
      ensures serie.detrend == old(serie.detrend) && serie.deseasonalize == old(serie.deseasonalize)
      ensures serie.seasonalPeriod == old(serie.seasonalPeriod)
      ensures serie.Valid() <==> old(serie.Valid())
      ensures var a := Analysis(old(serie.values), IsModified(serie), maxHorizon, normalized, uniformDraw, entropy);
              && (r.Failure? <==> a.Failure?)
              && (r.Failure? ==> r.error == a.error)
              && (r.Success? ==> r.value.values == a.value)
      ensures serie.values == if r.Failure? && r.error != TooShort && IsModified(serie)
                              then Stabilized(old(serie.values), true) else old(serie.values)
      ensures r.Success? ==> fresh(r.value) && r.value.Valid()
      ensures r.Success? ==> r.value.identifier == Some(ResultIdentifier) && r.value.index == Range(|r.value.values|)
      ensures r.Success? ==> !r.value.detrend && !r.value.deseasonalize && r.value.seasonalPeriod.None?
    {
      if !CheckIfSerieIsNotEmpty(serie) {
        return Failure(TooShort);
      }
      var modified := IsModified(serie);
      var original := serie.values;
      if modified {
        original := ModifySerieValues(serie);
      }
      var kls := ComputeKlForShifts(serie, entropy);
      if normalized {
        if !UniformDrawable(serie.values) {
          return Failure(RangeOverflow);
        }
        // With no lag there is nothing to divide, whatever the reference.
        if |kls| > 0 {
          var ref := Reference(serie.values, uniformDraw);
          if ref.Zero? {
            return Failure(ZeroDivision);
          }
          kls := Normalized(kls, ref.Value(entropy).x);
        }
      }
      if modified {
        serie.values := original;
      }
      var result := new Serie(kls, identifier := Some(ResultIdentifier));
      return Success(result);
    }
  }
}
