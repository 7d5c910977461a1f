/** `KLDivergence.compute` of kl_evolution/core/features/kl_divergence.py: the
    guards that run before `scipy.stats.entropy`. The formula itself is not
    modelled; it enters as the parameter `entropy`. */
module KLDivergence {
  import opened Wrappers
  import opened Floats
  import opened DataObjects

  /** `scipy.stats.entropy(pk=p, qk=q, nan_policy="omit")`, left abstract. */
  type Entropy = (seq<Float>, seq<Float>) -> Float

  /** The bare Exception "Both p and q must be specified", and the ValueError
      the formula raises for operands numpy cannot broadcast together. */
  datatype KLError = MissingOperand | ShapeMismatch

  /** Whether numpy broadcasts one-dimensional arrays of lengths `n` and `m`
      together: equal lengths, or one of them 1. */
  predicate Broadcastable(n: nat, m: nat)
  {
    n == m || n == 1 || m == 1
  }

  /** The operands `compute` returns a float for: both non-empty, and either
      a guard answers before the formula or the formula accepts their shapes. */
  predicate Accepts(p: seq<Float>, q: seq<Float>)
  {
    |p| > 0 && |q| > 0 && (AllEq(p, 0.0) || AllEq(q, 0.0) || Broadcastable(|p|, |q|))
  }

  /** Which branch produced the divergence: the constant `0.0`, the constant
      `float("inf")`, or the general formula applied to the two operands. */
  datatype Divergence = Zero | Infinite | General(p: seq<Float>, q: seq<Float>) {

    /** The float the branch returns, given the formula. */
    function Value(entropy: Entropy): Float
    {
      match this
      case Zero => Fin(0.0)
      case Infinite => PosInf
      case General(p, q) => entropy(p, q)
    }
  }

  /** `compute(p, q)` on the operands' values, the only part of a `Serie` it
      reads. A `Serie` defines `__len__` and no `__bool__`, so `not p` holds
      exactly for an empty series. */
  function Compute(p: seq<Float>, q: seq<Float>): (r: Result<Divergence, KLError>)
    ensures r.Success? <==> Accepts(p, q)
    ensures r.Failure? ==> (r.error == MissingOperand <==> |p| == 0 || |q| == 0)
    ensures r.Success? ==> (r.value.Zero? <==> AllEq(p, 0.0))
    ensures r.Success? ==> (r.value.Infinite? <==> !AllEq(p, 0.0) && AllEq(q, 0.0))
    ensures r.Success? && r.value.General? ==> r.value.p == p && r.value.q == q
  {
    if |p| == 0 || |q| == 0 then Failure(MissingOperand)
    else
      var pEmpty := AllEq(p, 0.0);
      var qEmpty := AllEq(q, 0.0);
      if pEmpty && qEmpty then Success(Zero)
      else if pEmpty then Success(Zero)
      else if qEmpty then Success(Infinite)
      else if !Broadcastable(|p|, |q|) then Failure(ShapeMismatch)
      else Success(General(p, q))
  }

  /** The float `compute` returns for operands it accepts. */
  function ComputeFloat(p: seq<Float>, q: seq<Float>, entropy: Entropy): Float
    requires Accepts(p, q)
  {
    Compute(p, q).value.Value(entropy)
  }

  /** An all-zero `p` gives `0.0`, whatever `q` is. */
  lemma ZeroWhenPIsZero(p: seq<Float>, q: seq<Float>, entropy: Entropy)
    requires |p| > 0 && |q| > 0
    requires forall i :: 0 <= i < |p| ==> p[i] == Fin(0.0)
    ensures ComputeFloat(p, q, entropy) == Fin(0.0)
  {
    assert AllEq(p, 0.0);
  }

  /** A `q` made only of NaN reads as all zero, so against any `p` that does
      not, the result is `+inf`. */
  lemma InfiniteAgainstAllNaN(p: seq<Float>, q: seq<Float>, entropy: Entropy)
    requires |p| > 0 && |q| > 0
    requires AllNaN(q)
    requires exists i :: 0 <= i < |p| && p[i].Fin? && p[i].x != 0.0
    ensures ComputeFloat(p, q, entropy) == PosInf
  {
    assert AllEq(q, 0.0);
  }

  /** The formula is reached exactly when neither operand reads as all zero;
      it then sees the operands unchanged, or raises when their lengths do not
      broadcast. */
  lemma GeneralOnlyWhenBothNonZero(p: seq<Float>, q: seq<Float>, entropy: Entropy)
    requires |p| > 0 && |q| > 0
    ensures Compute(p, q).Success? && Compute(p, q).value.General? <==>
              !AllEq(p, 0.0) && !AllEq(q, 0.0) && Broadcastable(|p|, |q|)
    ensures Compute(p, q).Success? && Compute(p, q).value.General? ==> ComputeFloat(p, q, entropy) == entropy(p, q)
    ensures !AllEq(p, 0.0) && !AllEq(q, 0.0) && !Broadcastable(|p|, |q|) ==> Compute(p, q) == Failure(ShapeMismatch)
  {
  }

  /** Operands of the same length are always accepted. */
  lemma SameLengthAccepted(p: seq<Float>, q: seq<Float>)
    requires |p| > 0 && |p| == |q|
    ensures Compute(p, q).Success?
  {
  }

  /** If the formula gives 0 for identical operands, so does `compute`,
      including when the guards answer first. */
  lemma SelfDivergenceIsZero(p: seq<Float>, entropy: Entropy)
    requires |p| > 0
    requires entropy(p, p) == Fin(0.0)
    ensures ComputeFloat(p, p, entropy) == Fin(0.0)
  {
  }
}
