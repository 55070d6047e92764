// The transition model: backward migration rates between the dormant (0)
// and active (1) demes and the deme population sizes.

module TransitionModels {
  import opened Doubles

  /**
   * A Function input of a BEAST object: a RealParameter, which has bounds,
   * or any other function, which has only a value (getArrayValue()).
   */
  datatype Param =
    | RealParam(value: real, lower: real, upper: real)
    | OtherFunction(value: real)
  {
    predicate InBounds() { RealParam? ==> lower <= value <= upper }
  }

  /** Raising a RealParameter's lower bound to at least 0; other functions are left alone. */
  function ClampLowerToZero(p: Param): (r: Param)
    ensures r.value == p.value
    ensures r.RealParam? <==> p.RealParam?
    ensures r.RealParam? ==> r.lower >= 0.0 && r.upper == p.upper
    ensures r.RealParam? ==> (r.lower == p.lower <==> p.lower >= 0.0)
  {
    match p
    case RealParam(v, lo, hi) => RealParam(v, if lo >= 0.0 then lo else 0.0, hi)
    case OtherFunction(v) => p
  }

  /** rate = seedbank intensity c, K = ratio of active to dormant population. */
  datatype TransitionModel = TransitionModel(rate: Param, K: Param, activeSize: Param)

  /** initAndValidate: clamps the lower bound of each RealParameter input at 0. */
  function InitAndValidate(m: TransitionModel): (r: TransitionModel)
    ensures r.rate.value == m.rate.value && r.K.value == m.K.value && r.activeSize.value == m.activeSize.value
    ensures r.rate.RealParam? && r.rate.InBounds() ==> r.rate.value >= 0.0
    ensures r.K.RealParam? && r.K.InBounds() ==> r.K.value >= 0.0
    ensures r.activeSize.RealParam? && r.activeSize.InBounds() ==> r.activeSize.value >= 0.0
  {
    TransitionModel(ClampLowerToZero(m.rate), ClampLowerToZero(m.K), ClampLowerToZero(m.activeSize))
  }

  /** Backward-time rate from deme i to deme j. */
  function BackwardRate(m: TransitionModel, i: int, j: int): (r: real)
    ensures i == j ==> r == 0.0
    ensures i != j && m.K.value == 1.0 ==> r == m.rate.value
  {
    if i == j then 0.0
    else if i == 1 && j == 0 then m.rate.value
    else m.rate.value * m.K.value
  }

  /** Population size of deme i: activeSize for deme 1, activeSize / K otherwise. */
  function PopSize(m: TransitionModel, i: int): (r: Double)
    ensures i == 1 || m.K.value == 1.0 ==> r == Finite(m.activeSize.value)
    ensures i != 1 ==> (r.Finite? <==> m.K.value != 0.0)
  {
    if i == 1 then Finite(m.activeSize.value) else Div(m.activeSize.value, m.K.value)
  }

  /** The dormant deme is the size that, scaled by K, gives the active size. */
  lemma DormantSizeTimesK(m: TransitionModel, i: int)
    requires i != 1 && m.K.value != 0.0
    ensures PopSize(m, i).Finite? && PopSize(m, i).v * m.K.value == m.activeSize.value
  {
    assert PopSize(m, i).v == m.activeSize.value / m.K.value;
  }

  /** The rate matrix has a zero diagonal, rate for 1 -> 0, and rate*K for every other pair. */
  lemma BackwardRateCases(m: TransitionModel, i: int, j: int)
    ensures BackwardRate(m, i, i) == 0.0
    ensures BackwardRate(m, 1, 0) == m.rate.value
    ensures i != j && !(i == 1 && j == 0) ==> BackwardRate(m, i, j) == m.rate.value * m.K.value
  {
  }

  /**
   * Once initAndValidate has run, any in-bounds value of rate and K
   * (both RealParameters) gives non-negative rates, and an in-bounds active
   * size with a positive K gives non-negative deme sizes.
   */
  lemma ValidatedRatesNonNegative(m0: TransitionModel, m: TransitionModel, i: int, j: int)
    requires m0.rate.RealParam? && m0.K.RealParam? && m0.activeSize.RealParam?
    requires m.rate == InitAndValidate(m0).rate.(value := m.rate.value)
    requires m.K == InitAndValidate(m0).K.(value := m.K.value)
    requires m.activeSize == InitAndValidate(m0).activeSize.(value := m.activeSize.value)
    requires m.rate.InBounds() && m.K.InBounds() && m.activeSize.InBounds()
    ensures BackwardRate(m, i, j) >= 0.0
    ensures PopSize(m, 1).Finite? && PopSize(m, 1).v >= 0.0
    ensures m.K.value > 0.0 ==> PopSize(m, 0).Finite? && PopSize(m, 0).v >= 0.0
  {
    assert m.rate.value >= 0.0 && m.K.value >= 0.0;
    BackwardRateCases(m, i, j);
    if m.K.value > 0.0 {
      assert m.activeSize.value >= 0.0;
      assert m.activeSize.value / m.K.value >= 0.0;
    }
  }
}
