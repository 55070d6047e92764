// LambdaScaler and LambdaScalerOld: pick one branch whose indicator is 1
// and retype it. LambdaScaler retypes by uniformization and returns the
// old path probability less the new one; LambdaScalerOld first scales the
// branch's lambda by a factor drawn between s and 1/s, rejects a zero or
// out-of-bounds lambda, and retypes under the scaled lambda with the
// constrained layout. Any Java exception inside proposal becomes
// -infinity.
//
// The indicators are the etas parameter. The random index, the scale draw,
// the draws of the retyping, the parameter bounds of the lambdas and the
// acceptance counts of getPerformanceSuggestion are parameters.

module LambdaScalers {
  import opened Wrappers
  import opened Doubles
  import opened SeedbankNodes
  import opened SeedbankTrees
  import opened TreeSurgery
  import opened Retype
  import opened ConstrainedRetype
  import opened DormantBitFlips
  import ConstrainedProperties
  import DormancyMovers

  /**
   * The catch-all around proposal: a Java exception becomes -infinity.
   * Running out of the draws the model was given is not a Java exception
   * and is passed on.
   */
  function Caught(r: Result<Double>): (c: Result<Double>)
    ensures c.Fail? ==> c.error == DrawsExhausted
    ensures r.Ok? || r.error == DrawsExhausted ==> c == r
    ensures r.Fail? && r.error != DrawsExhausted ==> c == Ok(NegInf)
  {
    if r.Fail? && r.error != DrawsExhausted then Ok(NegInf) else r
  }

  /* ---------------------------------------------------------------------
   * LambdaScaler.
   */

  /**
   * LambdaScaler.proposal: -infinity when no indicator is 1; otherwise the
   * branch chosen among the indicated ones is retyped, and the result is
   * getBranchTypeProb before the retype less the retype's log
   * probability (-infinity for a -infinity retype or the root's
   * NullPointerException).
   */
  function Rescaled(v: seq<NodeRec>, ind: Indicators, ch: Chain, ln: real -> real, pick: nat, pba: real, nVirt: int,
                    timeDraws: seq<real>, typeDraws: seq<real>): (r: Flip)
    requires Shaped(v) && Fits(ind, v)
    ensures Shaped(r.view) && Fits(r.params, r.view) && |r.view| == |v|
    ensures r.result.Fail? ==> r.result.error == DrawsExhausted
    ensures DormancyMovers.Chosen(ind.etas, pick).None? ==> r == Flip(Ok(NegInf), v, ind)
    ensures (exists i :: 0 <= i < |v| && v[i].parent == -1 && DormancyMovers.Chosen(ind.etas, pick) == Some(i)) ==>
      r == Flip(Ok(NegInf), v, ind)
  {
    match DormancyMovers.Chosen(ind.etas, pick)
    case None => Flip(Ok(NegInf), v, ind)
    case Some(index) =>
      var before := BranchTypeProb(v, ch, ln, index, pba);
      if before.Fail? then Flip(Ok(NegInf), v, ind)
      else
        var f := Retyped(v, ind, index, Sampled(v, ch, ln, index, pba, nVirt, timeDraws, typeDraws), before.value);
        Flip(Caught(f.result), f.view, f.params)
  }

  /**
   * A switch-on or rescale that returns a value other than -infinity
   * wrote a path, and the value is logq less the probability
   * getBranchTypeProb gives the new branch, provided the retype's
   * log probability is that one.
   */
  lemma RetypedRatio(v: seq<NodeRec>, ind: Indicators, pos: int, s: Result<Path>, logq: Double, ch: Chain,
                     ln: real -> real, pba: real)
    requires Shaped(v) && Fits(ind, v) && 0 <= pos < |v|
    requires s.Ok? && s.value.Path? ==> |s.value.types| == |s.value.times|
    requires s.Ok? && s.value.Path? ==> BranchTypeProb(Written(v, pos, s.value), ch, ln, pos, pba) == Ok(s.value.logProb)
    ensures var f := Retyped(v, ind, pos, s, logq);
      f.result.Ok? && f.result.value != NegInf ==>
        BranchTypeProb(f.view, ch, ln, pos, pba).Ok? &&
        f.result.value == Sub(logq, BranchTypeProb(f.view, ch, ln, pos, pba).value)
  {
  }

  /**
   * LambdaScaler's value, when not -infinity, is the log ratio of the
   * chosen branch's path probability before and after the move, both as
   * getBranchTypeProb computes them, and the chosen branch has
   * indicator 1.
   */
  lemma RescaledRatio(v: seq<NodeRec>, ind: Indicators, ch: Chain, ln: real -> real, pick: nat, pba: real,
                      nVirt: int, timeDraws: seq<real>, typeDraws: seq<real>)
    requires Shaped(v) && Fits(ind, v)
    ensures var r := Rescaled(v, ind, ch, ln, pick, pba, nVirt, timeDraws, typeDraws);
      var c := DormancyMovers.Chosen(ind.etas, pick);
      r.result.Ok? && r.result.value != NegInf ==>
        c.Some? && ind.etas[c.value] == 1 &&
        BranchTypeProb(v, ch, ln, c.value, pba).Ok? && BranchTypeProb(r.view, ch, ln, c.value, pba).Ok? &&
        r.result.value == Sub(BranchTypeProb(v, ch, ln, c.value, pba).value, BranchTypeProb(r.view, ch, ln, c.value, pba).value)
  {
    var c := DormancyMovers.Chosen(ind.etas, pick);
    if c.Some? {
      var index := c.value;
      var before := BranchTypeProb(v, ch, ln, index, pba);
      if before.Ok? {
        var s := Sampled(v, ch, ln, index, pba, nVirt, timeDraws, typeDraws);
        RetypedPathProb(v, ch, ln, index, pba, nVirt, timeDraws, typeDraws);
        RetypedRatio(v, ind, index, s, before.value, ch, ln, pba);
      }
    }
  }

  /** LambdaScaler touches only the chosen branch, its indicator and its lambda. */
  lemma RescaledIsLocal(v: seq<NodeRec>, ind: Indicators, ch: Chain, ln: real -> real, pick: nat, pba: real,
                        nVirt: int, timeDraws: seq<real>, typeDraws: seq<real>)
    requires Shaped(v) && Fits(ind, v)
    ensures var r := Rescaled(v, ind, ch, ln, pick, pba, nVirt, timeDraws, typeDraws);
      var c := DormancyMovers.Chosen(ind.etas, pick);
      forall i :: 0 <= i < |v| && (c.None? || i != c.value) ==>
        r.view[i] == v[i] && r.params.lambdas[i] == ind.lambdas[i] && r.params.etas[i] == ind.etas[i]
  {
    var c := DormancyMovers.Chosen(ind.etas, pick);
    if c.Some? {
      var index := c.value;
      var before := BranchTypeProb(v, ch, ln, index, pba);
      if before.Ok? {
        var s := Sampled(v, ch, ln, index, pba, nVirt, timeDraws, typeDraws);
        RetypedIsLocal(v, ind, index, s, before.value);
      }
    }
  }

  /** Rescaled once a non-root branch is chosen. */
  lemma RescaledFromRetype(v: seq<NodeRec>, ind: Indicators, ch: Chain, ln: real -> real, pick: nat, pba: real,
                           nVirt: int, timeDraws: seq<real>, typeDraws: seq<real>, index: int)
    requires Shaped(v) && Fits(ind, v)
    requires DormancyMovers.Chosen(ind.etas, pick) == Some(index) && BranchTypeProb(v, ch, ln, index, pba).Ok?
    ensures var f := Retyped(v, ind, index, Sampled(v, ch, ln, index, pba, nVirt, timeDraws, typeDraws),
                             BranchTypeProb(v, ch, ln, index, pba).value);
      Rescaled(v, ind, ch, ln, pick, pba, nVirt, timeDraws, typeDraws) == Flip(Caught(f.result), f.view, f.params)
  {
  }

  /** LambdaScaler.proposal on the tree and the parameters. */
  method Proposal(t: SeedbankTree, lambdas: array<Double>, etas: array<int>, ch: Chain, ln: real -> real,
                  pick: nat, pba: real, nVirt: int, timeDraws: seq<real>, typeDraws: seq<real>)
    returns (r: Result<Double>)
    requires t.Wf() && lambdas.Length == |t.nodes| && etas.Length == |t.nodes|
    modifies t.nodes, lambdas, etas
    ensures t.Wf()
    ensures var f := Rescaled(old(t.View()), Indicators(old(lambdas[..]), old(etas[..])), ch, ln, pick, pba, nVirt,
                              timeDraws, typeDraws);
      r == f.result && t.View() == f.view && Indicators(lambdas[..], etas[..]) == f.params
  {
    ghost var v := t.View();
    ghost var ind := Indicators(lambdas[..], etas[..]);
    var c := DormancyMovers.Choose(etas[..], pick);
    if c.None? {
      return Ok(NegInf);
    }
    var index := c.value;
    var before := GetBranchTypeProb(t, ch, ln, index, pba);
    if before.Fail? {
      return Ok(NegInf);
    }
    RescaledFromRetype(v, ind, ch, ln, pick, pba, nVirt, timeDraws, typeDraws, index);
    ghost var f := Retyped(v, ind, index, Sampled(v, ch, ln, index, pba, nVirt, timeDraws, typeDraws), before.value);
    assert t.View() == v && lambdas[..] == ind.lambdas && etas[..] == ind.etas;
    var retyped := RetypeFrom(t, lambdas, etas, ch, ln, index, pba, nVirt, timeDraws, typeDraws, before.value);
    assert retyped == f.result && t.View() == f.view && Indicators(lambdas[..], etas[..]) == f.params;
    r := Caught(retyped);
  }

  /* ---------------------------------------------------------------------
   * LambdaScalerOld.
   */

  /** getScaler: s + u * (1/s - s), a draw spread over [s, 1/s). */
  function Scaler(s: real, u: real): real
    requires s != 0.0
  {
    s + u * (1.0 / s - s)
  }

  /** A product of two positive reals is positive. */
  lemma ProductPositive(a: real, b: real)
    requires a > 0.0 && b > 0.0
    ensures a * b > 0.0
  {
  }

  /** With r the reciprocal of s, a draw in [0, 1) lands in [s, r). */
  lemma SpreadBelow(s: real, r: real, u: real)
    requires 0.0 < s < 1.0 && s * r == 1.0 && 0.0 <= u < 1.0
    ensures s <= s + u * (r - s) < r
  {
    assert r > 1.0;
    ProductPositive(1.0 - u, r - s);
    assert (1.0 - u) * (r - s) == (r - s) - u * (r - s);
  }

  /** For a scale factor in (0, 1) and a draw in [0, 1), the scaler lies in [s, 1/s). */
  lemma ScalerRange(s: real, u: real)
    requires 0.0 < s < 1.0 && 0.0 <= u < 1.0
    ensures s <= Scaler(s, u) < 1.0 / s && Scaler(s, u) > 0.0
  {
    SpreadBelow(s, 1.0 / s, u);
  }

  /** setCoercableParameterValue's clamp: max(min(value, upper), lower). */
  function Coerced(value: real, lower: real, upper: real): (r: real)
    ensures lower <= upper ==> lower <= r <= upper
    ensures lower <= value <= upper ==> r == value
    ensures value > upper && lower <= upper ==> r == upper
    ensures value < lower ==> r == lower
  {
    var m := if value < upper then value else upper;
    if m > lower then m else lower
  }

  /** outsideBounds: value < lower or value > upper. */
  predicate OutsideBounds(value: real, lower: real, upper: real)
  {
    value < lower || value > upper
  }

  /** The scaled lambda, scale * old. */
  function ScaledValue(scale: real, oldValue: real): real
  {
    scale * oldValue
  }

  /**
   * The branch LambdaScalerOld retypes: the one chosen among the indicated
   * branches, provided its lambda is not 0 and the scaled lambda is within
   * the bounds.
   */
  function Screened(ind: Indicators, pick: nat, scale: real, lower: real, upper: real): (r: Option<int>)
    requires |ind.lambdas| == |ind.etas| && forall i :: 0 <= i < |ind.lambdas| ==> ind.lambdas[i].Finite?
    ensures var c := DormancyMovers.Chosen(ind.etas, pick);
      r.Some? <==> (c.Some? && ind.lambdas[c.value].v != 0.0 &&
                    !OutsideBounds(ScaledValue(scale, ind.lambdas[c.value].v), lower, upper))
    ensures r.Some? ==> r == DormancyMovers.Chosen(ind.etas, pick) && ind.etas[r.value] == 1
  {
    match DormancyMovers.Chosen(ind.etas, pick)
    case None => None
    case Some(index) =>
      if ind.lambdas[index].v == 0.0 || OutsideBounds(ScaledValue(scale, ind.lambdas[index].v), lower, upper) then None
      else Some(index)
  }

  /** The choice and the two checks of LambdaScalerOld.proposal, on the parameters. */
  method Screen(lambdas: array<Double>, etas: array<int>, pick: nat, scale: real, lower: real, upper: real)
    returns (target: Option<int>)
    requires lambdas.Length == etas.Length && forall i :: 0 <= i < lambdas.Length ==> lambdas[i].Finite?
    ensures target == Screened(Indicators(lambdas[..], etas[..]), pick, scale, lower, upper)
  {
    var c := DormancyMovers.Choose(etas[..], pick);
    if c.None? {
      return None;
    }
    var index := c.value;
    var oldValue := lambdas[index].v;
    if oldValue == 0.0 {
      return None;
    }
    var newValue := scale * oldValue;
    if newValue < lower || newValue > upper {
      return None;
    }
    return Some(index);
  }

  /**
   * LambdaScalerOld.proposal for the drawn scale: -infinity, with nothing
   * changed, when no indicator is 1, when the chosen lambda is 0 or when
   * the scaled lambda falls outside the bounds; otherwise the lambda is
   * set to the scaled value and the branch is retyped under it, and the
   * result is the negated log probability of the retype (0 less it).
   */
  function ScaledLambda(v: seq<NodeRec>, ind: Indicators, ch: Chain, ln: real -> real, scale: real, lower: real,
                        upper: real, pick: nat, pba: real, nVirt: int,
                        typeDraws: seq<real>, dormantDraws: seq<real>, activeDraws: seq<real>): (r: Flip)
    requires Shaped(v) && Fits(ind, v) && forall i :: 0 <= i < |v| ==> v[i].nodeType == 0 || v[i].nodeType == 1
    requires forall i :: 0 <= i < |ind.lambdas| ==> ind.lambdas[i].Finite?
    ensures Shaped(r.view) && Fits(r.params, r.view) && |r.view| == |v|
    ensures r.result.Fail? ==> r.result.error == DrawsExhausted
    ensures var c := DormancyMovers.Chosen(ind.etas, pick);
      c.None? || ind.lambdas[c.value].v == 0.0 ||
      OutsideBounds(ScaledValue(scale, ind.lambdas[c.value].v), lower, upper) ==>
        r == Flip(Ok(NegInf), v, ind)
  {
    match Screened(ind, pick, scale, lower, upper)
    case None => Flip(Ok(NegInf), v, ind)
    case Some(index) =>
        var newValue := ScaledValue(scale, ind.lambdas[index].v);
        var f := Retyped(v, Indicators(ind.lambdas[index := Finite(newValue)], ind.etas), index,
                         Constrained(v, ch, ln, Some(newValue), index, pba, nVirt, typeDraws, dormantDraws, activeDraws),
                         Finite(0.0));
        Flip(Caught(f.result), f.view, f.params)
  }

  /** ScaledLambda once the chosen lambda has passed both checks. */
  lemma ScaledFromChecks(v: seq<NodeRec>, ind: Indicators, ch: Chain, ln: real -> real, scale: real, lower: real,
                         upper: real, pick: nat, pba: real, nVirt: int,
                         typeDraws: seq<real>, dormantDraws: seq<real>, activeDraws: seq<real>, index: int)
    requires Shaped(v) && Fits(ind, v) && forall i :: 0 <= i < |v| ==> v[i].nodeType == 0 || v[i].nodeType == 1
    requires forall i :: 0 <= i < |ind.lambdas| ==> ind.lambdas[i].Finite?
    requires Screened(ind, pick, scale, lower, upper) == Some(index)
    ensures var newValue := ScaledValue(scale, ind.lambdas[index].v);
      var f := Retyped(v, Indicators(ind.lambdas[index := Finite(newValue)], ind.etas), index,
                       Constrained(v, ch, ln, Some(newValue), index, pba, nVirt, typeDraws, dormantDraws, activeDraws),
                       Finite(0.0));
      ScaledLambda(v, ind, ch, ln, scale, lower, upper, pick, pba, nVirt, typeDraws, dormantDraws, activeDraws) ==
        Flip(Caught(f.result), f.view, f.params)
  {
  }

  /** 0 less a double is its negation, infinities and NaN included. */
  lemma ZeroLess(x: Double)
    ensures Sub(Finite(0.0), x) == Neg(x)
  {
  }

  /**
   * LambdaScalerOld leaves the scaled lambda on a branch with a length
   * once the scaling passes its checks, whatever the retype does: the
   * constrained retype lays out exactly that dormant share.
   */
  lemma ScaledLambdaKept(v: seq<NodeRec>, ind: Indicators, ch: Chain, ln: real -> real, scale: real, lower: real,
                         upper: real, pick: nat, pba: real, nVirt: int,
                         typeDraws: seq<real>, dormantDraws: seq<real>, activeDraws: seq<real>)
    requires Shaped(v) && Fits(ind, v) && forall i :: 0 <= i < |v| ==> v[i].nodeType == 0 || v[i].nodeType == 1
    requires forall i :: 0 <= i < |ind.lambdas| ==> ind.lambdas[i].Finite?
    ensures var c := DormancyMovers.Chosen(ind.etas, pick);
      var r := ScaledLambda(v, ind, ch, ln, scale, lower, upper, pick, pba, nVirt, typeDraws, dormantDraws, activeDraws);
      c.Some? && ind.lambdas[c.value].v != 0.0 && BranchLength(v, c.value) != 0.0 &&
      !OutsideBounds(ScaledValue(scale, ind.lambdas[c.value].v), lower, upper) ==>
        r.params.lambdas[c.value] == Finite(ScaledValue(scale, ind.lambdas[c.value].v)) &&
        r.params.etas == ind.etas[c.value := r.params.etas[c.value]]
  {
    var c := DormancyMovers.Chosen(ind.etas, pick);
    if c.Some? && ind.lambdas[c.value].v != 0.0 {
      var index := c.value;
      var newValue := ScaledValue(scale, ind.lambdas[index].v);
      var ind1 := Indicators(ind.lambdas[index := Finite(newValue)], ind.etas);
      var s := Constrained(v, ch, ln, Some(newValue), index, pba, nVirt, typeDraws, dormantDraws, activeDraws);
      ConstrainedProperties.ConstrainedKeepsLambda(v, ch, ln, Some(newValue), index, pba, nVirt, typeDraws,
                                                   dormantDraws, activeDraws);
      if s.Ok? && s.value.Path? {
        var w := Written(v, index, s.value);
        assert Recalc(ind1, w, index).lambdas[index] == DormantFraction(w, index);
      }
    }
  }

  /**
   * LambdaScalerOld's value, when not -infinity, is the negated
   * probability getBranchTypeProb gives the retyped branch.
   */
  lemma ScaledLambdaRatio(v: seq<NodeRec>, ind: Indicators, ch: Chain, ln: real -> real, scale: real, lower: real,
                          upper: real, pick: nat, pba: real, nVirt: int,
                          typeDraws: seq<real>, dormantDraws: seq<real>, activeDraws: seq<real>)
    requires Shaped(v) && Fits(ind, v) && forall i :: 0 <= i < |v| ==> v[i].nodeType == 0 || v[i].nodeType == 1
    requires forall i :: 0 <= i < |ind.lambdas| ==> ind.lambdas[i].Finite?
    ensures var c := DormancyMovers.Chosen(ind.etas, pick);
      var r := ScaledLambda(v, ind, ch, ln, scale, lower, upper, pick, pba, nVirt, typeDraws, dormantDraws, activeDraws);
      r.result.Ok? && r.result.value != NegInf ==>
        c.Some? && BranchTypeProb(r.view, ch, ln, c.value, pba).Ok? &&
        r.result.value == Neg(BranchTypeProb(r.view, ch, ln, c.value, pba).value)
  {
    var c := DormancyMovers.Chosen(ind.etas, pick);
    if c.Some? && ind.lambdas[c.value].v != 0.0 {
      var index := c.value;
      var newValue := ScaledValue(scale, ind.lambdas[index].v);
      var ind1 := Indicators(ind.lambdas[index := Finite(newValue)], ind.etas);
      var s := Constrained(v, ch, ln, Some(newValue), index, pba, nVirt, typeDraws, dormantDraws, activeDraws);
      ConstrainedProperties.ConstrainedPathProb(v, ch, ln, Some(newValue), index, pba, nVirt, typeDraws,
                                                dormantDraws, activeDraws);
      RetypedRatio(v, ind1, index, s, Finite(0.0), ch, ln, pba);
      var f := Retyped(v, ind1, index, s, Finite(0.0));
      if f.result.Ok? && f.result.value != NegInf {
        ZeroLess(BranchTypeProb(f.view, ch, ln, index, pba).value);
      }
    }
  }

  /** The ratio getPerformanceSuggestion uses: the acceptance rate over its target, clamped to [0.5, 2]. */
  function SuggestionRatio(prob: real, target: real): (r: real)
    requires target != 0.0
    ensures 0.5 <= r <= 2.0
    ensures 0.5 <= prob / target <= 2.0 ==> r == prob / target
  {
    var ratio := prob / target;
    if ratio > 2.0 then 2.0 else if ratio < 0.5 then 0.5 else ratio
  }

  /** The operator's scale factor and its bounds; optimize and tuning change the factor in place. */
  class LambdaScalerOld {
    var scaleFactor: real
    const upper: real
    const lower: real

    /** initAndValidate: the factor and its bounds from the inputs. */
    constructor(scaleFactor0: real, upper0: real, lower0: real)
      ensures scaleFactor == scaleFactor0 && upper == upper0 && lower == lower0
    {
      scaleFactor := scaleFactor0;
      upper := upper0;
      lower := lower0;
    }

    /** setCoercableParameterValue: the factor clamped into [lower, upper]. */
    method SetCoercableParameterValue(value: real)
      modifies this
      ensures scaleFactor == Coerced(value, lower, upper)
      ensures lower <= upper ==> lower <= scaleFactor <= upper
    {
      var m := if value < upper then value else upper;
      scaleFactor := if m > lower then m else lower;
    }

    /** getScaler for the draw u. */
    method GetScaler(u: real) returns (scale: real)
      requires scaleFactor != 0.0
      ensures scale == Scaler(scaleFactor, u)
      ensures 0.0 < scaleFactor < 1.0 && 0.0 <= u < 1.0 ==> scaleFactor <= scale < 1.0 / scaleFactor
    {
      scale := scaleFactor + (u * ((1.0 / scaleFactor) - scaleFactor));
      if 0.0 < scaleFactor < 1.0 && 0.0 <= u < 1.0 {
        ScalerRange(scaleFactor, u);
      }
    }

    /**
     * getPerformanceSuggestion: a suggested factor, the current one raised
     * to the clamped ratio, when the acceptance rate is below 0.10 or
     * above 0.40, and none (the empty string) otherwise or before any
     * proposal (the rate is then NaN).
     */
    function Suggestion(accepted: nat, rejected: nat, target: real, pow: (real, real) -> real): (r: Option<real>)
      reads this
      requires target != 0.0
      ensures r.Some? <==> (accepted + rejected > 0 &&
        ((accepted as real) / ((accepted + rejected) as real) < 0.10 ||
         (accepted as real) / ((accepted + rejected) as real) > 0.40))
      ensures r.Some? ==>
        exists ratio :: 0.5 <= ratio <= 2.0 && r.value == pow(scaleFactor, ratio)
    {
      if accepted + rejected == 0 then None
      else
        var prob := (accepted as real) / ((accepted + rejected) as real);
        var sf := pow(scaleFactor, SuggestionRatio(prob, target));
        if prob < 0.10 || prob > 0.40 then Some(sf) else None
    }

    /** LambdaScalerOld.proposal for the draw u of getScaler and the lambdas' bounds. */
    method Proposal(t: SeedbankTree, lambdas: array<Double>, etas: array<int>, ch: Chain, ln: real -> real,
                    u: real, lowerBound: real, upperBound: real, pick: nat, pba: real, nVirt: int,
                    typeDraws: seq<real>, dormantDraws: seq<real>, activeDraws: seq<real>)
      returns (r: Result<Double>)
      requires t.Wf() && lambdas.Length == |t.nodes| && etas.Length == |t.nodes| && scaleFactor != 0.0
      requires forall i :: 0 <= i < |t.nodes| ==> t.View()[i].nodeType == 0 || t.View()[i].nodeType == 1
      requires forall i :: 0 <= i < lambdas.Length ==> lambdas[i].Finite?
      modifies t.nodes, lambdas, etas
      ensures t.Wf()
      ensures var f := ScaledLambda(old(t.View()), Indicators(old(lambdas[..]), old(etas[..])), ch, ln,
                                    Scaler(scaleFactor, u), lowerBound, upperBound, pick, pba, nVirt,
                                    typeDraws, dormantDraws, activeDraws);
        r == f.result && t.View() == f.view && Indicators(lambdas[..], etas[..]) == f.params
    {
      var scale := GetScaler(u);
      r := ScaleChosen(t, lambdas, etas, ch, ln, scale, lowerBound, upperBound, pick, pba, nVirt,
                       typeDraws, dormantDraws, activeDraws);
    }

    /** The proposal once the scale is drawn: choose, check and retype. */
    static method ScaleChosen(t: SeedbankTree, lambdas: array<Double>, etas: array<int>, ch: Chain, ln: real -> real,
                              scale: real, lowerBound: real, upperBound: real, pick: nat, pba: real, nVirt: int,
                              typeDraws: seq<real>, dormantDraws: seq<real>, activeDraws: seq<real>)
      returns (r: Result<Double>)
      requires t.Wf() && lambdas.Length == |t.nodes| && etas.Length == |t.nodes|
      requires forall i :: 0 <= i < |t.nodes| ==> t.View()[i].nodeType == 0 || t.View()[i].nodeType == 1
      requires forall i :: 0 <= i < lambdas.Length ==> lambdas[i].Finite?
      modifies t.nodes, lambdas, etas
      ensures t.Wf()
      ensures var f := ScaledLambda(old(t.View()), Indicators(old(lambdas[..]), old(etas[..])), ch, ln,
                                    scale, lowerBound, upperBound, pick, pba, nVirt,
                                    typeDraws, dormantDraws, activeDraws);
        r == f.result && t.View() == f.view && Indicators(lambdas[..], etas[..]) == f.params
    {
      ghost var v := t.View();
      ghost var ind := Indicators(lambdas[..], etas[..]);
      var target := Screen(lambdas, etas, pick, scale, lowerBound, upperBound);
      if target.None? {
        return Ok(NegInf);
      }
      var index := target.value;
      var newValue := ScaledValue(scale, lambdas[index].v);
      ScaledFromChecks(v, ind, ch, ln, scale, lowerBound, upperBound, pick, pba, nVirt, typeDraws, dormantDraws,
                       activeDraws, index);
      ghost var f := Retyped(v, Indicators(ind.lambdas[index := Finite(newValue)], ind.etas), index,
                             Constrained(v, ch, ln, Some(newValue), index, pba, nVirt, typeDraws, dormantDraws,
                                         activeDraws), Finite(0.0));
      assert t.View() == v && lambdas[..] == ind.lambdas && etas[..] == ind.etas;
      r := ScaleAndRetype(t, lambdas, etas, ch, ln, index, newValue, pba, nVirt, typeDraws, dormantDraws, activeDraws);
      assert r == Caught(f.result) && t.View() == f.view && Indicators(lambdas[..], etas[..]) == f.params;
    }

    /** The lambda write and the constrained retype under it, with the catch-all. */
    static method ScaleAndRetype(t: SeedbankTree, lambdas: array<Double>, etas: array<int>, ch: Chain, ln: real -> real,
                                 index: int, newValue: real, pba: real, nVirt: int,
                                 typeDraws: seq<real>, dormantDraws: seq<real>, activeDraws: seq<real>)
      returns (r: Result<Double>)
      requires t.Wf() && lambdas.Length == |t.nodes| && etas.Length == |t.nodes| && 0 <= index < |t.nodes|
      requires t.View()[index].nodeType == 0 || t.View()[index].nodeType == 1
      modifies t.nodes[index], lambdas, etas
      ensures t.Wf()
      ensures var v := old(t.View());
        var f := Retyped(v, Indicators(old(lambdas[..])[index := Finite(newValue)], old(etas[..])), index,
                         Constrained(v, ch, ln, Some(newValue), index, pba, nVirt, typeDraws, dormantDraws, activeDraws),
                         Finite(0.0));
        r == Caught(f.result) && t.View() == f.view && Indicators(lambdas[..], etas[..]) == f.params
    {
      lambdas[index] := Finite(newValue);
      var retyped := ConstrainedRetypeFrom(t, lambdas, etas, ch, ln, index, pba, nVirt, typeDraws, dormantDraws,
                                           activeDraws, Finite(0.0));
      r := Caught(retyped);
    }
  }
}
