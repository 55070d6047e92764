// The spike-and-slab prior on the branch dormancy fractions: each value x_i
// comes from the slab when its mixture weight gamma_i is 1 and sits on the
// spike otherwise. The slab is any continuous distribution, given here by
// its CDF, density and log density.

module SpikeAndSlab {
  import opened Wrappers
  import opened Doubles

  /** The slab: a continuous distribution supplied by the caller. */
  datatype Slab = Slab(cdf: real -> real, density: real -> real, logDensity: real -> Double)

  /** SpikeAndSlabImpl: the spike location (0.0 unless an input sets it) and the slab. */
  datatype Mixture = Mixture(spike: real, slab: Slab)

  const DefaultSpike: real := 0.0

  /**
   * The value input: a RealParameter or IntegerParameter, which has bounds
   * that are checked, or any other function, which has only values.
   */
  datatype XInput = Bounded(values: seq<real>, lower: real, upper: real) | Unbounded(values: seq<real>)

  /**
   * Java's (int) cast of a finite double: truncation toward zero, saturating
   * at the int range.
   */
  function JavaIntCast(g: real): (r: int)
    ensures -0x8000_0000 <= r <= 0x7fff_ffff
    ensures g >= 0.0 && g < 0x7fff_ffff as real ==> r as real <= g < r as real + 1.0
    ensures g <= 0.0 && g > -0x8000_0000 as real ==> r as real - 1.0 < g <= r as real
  {
    if g >= 0x7fff_ffff as real then 0x7fff_ffff
    else if g <= -0x8000_0000 as real then -0x8000_0000
    else if g >= 0.0 then g.Floor
    else -((-g).Floor)
  }

  /*
   * The three mixture functions. The source only asserts that gamma is 0 or
   * 1 (assertions are off in a normal run), so any gamma other than 1
   * takes the spike branch.
   */

  function CumulativeProbability(m: Mixture, x: real, gamma: int): (r: real)
    ensures gamma != 1 ==> (r == 1.0 <==> x >= m.spike) && (r == 0.0 <==> x < m.spike)
  {
    if gamma == 1 then m.slab.cdf(x) else if x >= m.spike then 1.0 else 0.0
  }

  function IntervalProbability(m: Mixture, x0: real, x1: real, gamma: int): (r: Result<real>)
    ensures r.Fail? <==> x0 > x1
    ensures r.Fail? ==> r.error == IllegalArgument
    ensures r.Ok? && gamma != 1 ==> (r.value == 1.0 <==> x0 < m.spike <= x1) && (r.value == 0.0 <==> !(x0 < m.spike <= x1))
  {
    if x0 > x1 then Fail(IllegalArgument)
    else Ok(CumulativeProbability(m, x1, gamma) - CumulativeProbability(m, x0, gamma))
  }

  function Density(m: Mixture, x: real, gamma: int): (r: real)
    ensures gamma != 1 ==> (r == 1.0 <==> x == m.spike) && (r == 0.0 <==> x != m.spike)
  {
    if gamma == 1 then m.slab.density(x) else if x == m.spike then 1.0 else 0.0
  }

  function LogDensity(m: Mixture, x: real, gamma: int): (r: Double)
    ensures gamma != 1 ==> (r == Finite(0.0) <==> x == m.spike) && (r == NegInf <==> x != m.spike)
  {
    if gamma == 1 then m.slab.logDensity(x) else if x == m.spike then Finite(0.0) else NegInf
  }

  /**
   * Off the slab the mixture is a point mass at the spike: the distribution
   * function at x is the mass at the spike once x reaches it and 0 before
   * it, the interval probability is the mass the interval holds, and the
   * log density is the log of the density (0 for mass 1, -infinity for 0).
   */
  lemma SpikeIsPointMass(m: Mixture, x0: real, x1: real, gamma: int)
    requires gamma != 1 && x0 <= x1
    ensures CumulativeProbability(m, x1, gamma) == if m.spike <= x1 then Density(m, m.spike, gamma) else 0.0
    ensures IntervalProbability(m, x0, x1, gamma) ==
      Ok(if x0 < m.spike <= x1 then Density(m, m.spike, gamma) else 0.0)
    ensures Density(m, x1, gamma) == 1.0 ==> LogDensity(m, x1, gamma) == Finite(0.0)
    ensures Density(m, x1, gamma) == 0.0 ==> LogDensity(m, x1, gamma) == NegInf
  {
  }

  /** Some value lies outside the parameter's bounds. */
  predicate OutOfBounds(x: XInput)
  {
    x.Bounded? && exists i :: 0 <= i < |x.values| && (x.values[i] < x.lower || x.values[i] > x.upper)
  }

  /** The running total after the first n values, starting from 0 and adding with IEEE semantics. */
  function PartialLogP(m: Mixture, xs: seq<real>, gs: seq<real>, n: nat): Double
    requires n <= |xs| && n <= |gs|
  {
    if n == 0 then Finite(0.0)
    else Add(PartialLogP(m, xs, gs, n - 1), LogDensity(m, xs[n - 1], JavaIntCast(gs[n - 1])))
  }

  /** A total of +infinity is reported as -infinity. */
  function NoPositiveInfinity(d: Double): (r: Double)
    ensures r != PosInf
    ensures d != PosInf ==> r == d
  {
    if d == PosInf then NegInf else d
  }

  /**
   * calculateLogP as a value: -infinity for an out-of-bounds value;
   * otherwise the total of the log densities (a gamma list shorter than the
   * values gives IndexOutOfBounds).
   */
  function LogP(m: Mixture, x: XInput, gamma: seq<real>): Result<Double>
  {
    if OutOfBounds(x) then Ok(NegInf)
    else if |gamma| < |x.values| then Fail(IndexOutOfBounds)
    else Ok(NoPositiveInfinity(PartialLogP(m, x.values, gamma, |x.values|)))
  }

  /** The bounds loop: finds whether any value lies outside [lower, upper]. */
  method CheckBounds(x: XInput) returns (outside: bool)
    ensures outside <==> OutOfBounds(x)
  {
    outside := false;
    if x.Bounded? {
      var i := 0;
      while i < |x.values|
        invariant 0 <= i <= |x.values|
        invariant forall j :: 0 <= j < i ==> x.lower <= x.values[j] <= x.upper
      {
        if x.values[i] < x.lower || x.values[i] > x.upper {
          return true;
        }
        i := i + 1;
      }
    }
  }

  /** The first n values all sit on the spike. */
  predicate OnSpike(m: Mixture, xs: seq<real>, n: nat)
    requires n <= |xs|
  {
    forall i :: 0 <= i < n ==> xs[i] == m.spike
  }

  lemma OnSpikeStep(m: Mixture, xs: seq<real>, n: nat)
    requires 0 < n <= |xs|
    ensures OnSpike(m, xs, n) <==> OnSpike(m, xs, n - 1) && xs[n - 1] == m.spike
  {
  }

  /**
   * With every weight 0 the prior is an indicator of the spike: the total is
   * 0 when every value sits on the spike and -infinity otherwise.
   */
  lemma {:induction false} AllSpikeLogP(m: Mixture, xs: seq<real>, gs: seq<real>, n: nat)
    requires n <= |xs| && n <= |gs|
    requires forall i :: 0 <= i < n ==> JavaIntCast(gs[i]) == 0
    ensures PartialLogP(m, xs, gs, n) == (if OnSpike(m, xs, n) then Finite(0.0) else NegInf)
  {
    if n > 0 {
      AllSpikeLogP(m, xs, gs, n - 1);
      var before := PartialLogP(m, xs, gs, n - 1);
      var term := LogDensity(m, xs[n - 1], JavaIntCast(gs[n - 1]));
      assert PartialLogP(m, xs, gs, n) == Add(before, term);
      OnSpikeStep(m, xs, n);
      assert term == (if xs[n - 1] == m.spike then Finite(0.0) else NegInf);
    }
  }

  /** The prior, holding its mixture and the last log density it computed. */
  class SpikeAndSlabPrior {
    var mixture: Mixture
    var logP: Double

    constructor (slab: Slab)
      ensures mixture == Mixture(DefaultSpike, slab) && logP == Finite(0.0)
    {
      mixture := Mixture(DefaultSpike, slab);
      logP := Finite(0.0);
    }

    /**
     * initAndValidate: takes the spike location when one is given and the
     * slab, refuses a gamma of another dimension than x, then computes logP.
     */
    method InitAndValidate(spike: Option<real>, slab: Slab, x: XInput, gamma: seq<real>) returns (r: Result<Double>)
      modifies this
      ensures mixture == Mixture(if spike.Some? then spike.value else old(mixture.spike), slab)
      ensures |x.values| != |gamma| ==> r == Fail(IllegalArgument) && logP == old(logP)
      ensures |x.values| == |gamma| ==> r == LogP(mixture, x, gamma) && r.Ok? && logP == r.value
    {
      if spike.Some? {
        mixture := mixture.(spike := spike.value);
      }
      mixture := mixture.(slab := slab);
      if |x.values| != |gamma| {
        return Fail(IllegalArgument);
      }
      r := CalculateLogP(x, gamma);
    }

    /**
     * calculateLogP: -infinity (stored and returned) when a bounded value is
     * out of bounds; otherwise the field logP is reset to 0 and accumulates
     * the log densities with IEEE addition, and a total of +infinity is
     * turned into -infinity. A gamma shorter than x raises when its first
     * missing entry is read, with the running total left in logP.
     */
    method CalculateLogP(x: XInput, gamma: seq<real>) returns (r: Result<Double>)
      modifies this
      ensures r == LogP(mixture, x, gamma)
      ensures r.Ok? ==> logP == r.value
      ensures r.Fail? ==> |gamma| < |x.values| && logP == PartialLogP(mixture, x.values, gamma, |gamma|)
      ensures mixture == old(mixture)
    {
      var outside := CheckBounds(x);
      if outside {
        logP := NegInf;
        return Ok(NegInf);
      }
      logP := Finite(0.0);
      var i := 0;
      while i < |x.values|
        invariant 0 <= i <= |x.values| && i <= |gamma|
        invariant logP == PartialLogP(mixture, x.values, gamma, i)
        invariant mixture == old(mixture)
      {
        if i >= |gamma| {
          return Fail(IndexOutOfBounds);
        }
        logP := Add(logP, LogDensity(mixture, x.values[i], JavaIntCast(gamma[i])));
        i := i + 1;
      }
      if logP == PosInf {
        logP := NegInf;
      }
      return Ok(logP);
    }
  }

  /**
   * The prior's value never is +infinity, and it is -infinity whenever a
   * value is out of bounds.
   */
  lemma LogPNeverPositive(m: Mixture, x: XInput, gamma: seq<real>)
    requires |gamma| == |x.values|
    ensures LogP(m, x, gamma).Ok? && LogP(m, x, gamma).value != PosInf
    ensures OutOfBounds(x) ==> LogP(m, x, gamma) == Ok(NegInf)
  {
  }

  /** With all weights 0 the prior is 0 exactly when every value sits on the spike. */
  lemma LogPOfSpikes(m: Mixture, x: XInput, gamma: seq<real>)
    requires |gamma| == |x.values| && !OutOfBounds(x)
    requires forall i :: 0 <= i < |gamma| ==> JavaIntCast(gamma[i]) == 0
    ensures LogP(m, x, gamma) == Ok(Finite(0.0)) <==> forall i :: 0 <= i < |x.values| ==> x.values[i] == m.spike
  {
    AllSpikeLogP(m, x.values, gamma, |x.values|);
  }
}
