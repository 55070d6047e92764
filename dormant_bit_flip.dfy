// DormantBitFlip and DormantBitFlipOld: flip the eta indicator of one
// branch. Switching it on draws a fresh lambda and retypes the branch
// (by uniformization, or by the constrained layout in the old operator);
// switching it off clears the branch's changes and zeroes its lambda.
//
// The lambdas and etas parameters are arrays with one entry per node; the
// random index, the fresh lambda and the draws of the retyping are
// parameters.

module DormantBitFlips {
  import opened Wrappers
  import opened Doubles
  import opened SeedbankNodes
  import opened SeedbankTrees
  import opened TreeSurgery
  import opened Retype
  import opened ConstrainedRetype
  import ConstrainedProperties

  /** What a flip returns and leaves: its result, the tree and the parameters. */
  datatype Flip = Flip(result: Result<Double>, view: seq<NodeRec>, params: Indicators)

  /* ---------------------------------------------------------------------
   * The counts and the proposal ratios.
   */

  /** The sum of the eta values, as DormantBitFlip adds them up. */
  function EtaSum(etas: seq<int>): (r: int)
    ensures (forall i :: 0 <= i < |etas| ==> etas[i] >= 0) ==> r >= 0
  {
    if |etas| == 0 then 0 else EtaSum(etas[..|etas| - 1]) + etas[|etas| - 1]
  }

  /** The number of etas equal to 1, as DormantBitFlipOld counts them. */
  function OnCount(etas: seq<int>): (r: nat)
    ensures r <= |etas|
  {
    if |etas| == 0 then 0 else OnCount(etas[..|etas| - 1]) + (if etas[|etas| - 1] == 1 then 1 else 0)
  }

  /** -log((dim - sum) / (sum + 1)): the ratio of a move that switches an indicator on. */
  function OnRatio(ln: real -> real, dim: int, sum: real): Double
  {
    Neg(Log(ln, Div(dim as real - sum, sum + 1.0)))
  }

  /** -log(sum / (dim - sum + 1)): the ratio of a move that switches an indicator off. */
  function OffRatio(ln: real -> real, dim: int, sum: real): Double
  {
    Neg(Log(ln, Div(sum, dim as real - sum + 1.0)))
  }

  /* ---------------------------------------------------------------------
   * The two branches of the flip.
   */

  /** The parameters once the indicator at pos is set to 1 and its lambda to l. */
  function On(ind: Indicators, pos: int, l: real): (r: Indicators)
    requires 0 <= pos < |ind.lambdas| && 0 <= pos < |ind.etas|
    ensures |r.lambdas| == |ind.lambdas| && |r.etas| == |ind.etas|
    ensures r.etas[pos] == 1 && r.lambdas[pos] == Finite(l)
  {
    Indicators(ind.lambdas[pos := Finite(l)], ind.etas[pos := 1])
  }

  /** The parameters once the indicator at pos is set to 0 and its lambda to 0. */
  function Off(ind: Indicators, pos: int): (r: Indicators)
    requires 0 <= pos < |ind.lambdas| && 0 <= pos < |ind.etas|
    ensures |r.lambdas| == |ind.lambdas| && |r.etas| == |ind.etas|
    ensures r.etas[pos] == 0 && r.lambdas[pos] == Finite(0.0)
  {
    Indicators(ind.lambdas[pos := Finite(0.0)], ind.etas[pos := 0])
  }

  /**
   * Switching on after the retype's outcome s: its exception, -infinity
   * for an aborted retype or a path of probability zero, and otherwise
   * logq less the path's log probability. A written path is followed by
   * recalculateLambda.
   */
  function Retyped(v: seq<NodeRec>, ind: Indicators, pos: int, s: Result<Path>, logq: Double): (r: Flip)
    requires Shaped(v) && Fits(ind, v) && 0 <= pos < |v|
    requires s.Ok? && s.value.Path? ==> |s.value.types| == |s.value.times|
    ensures Shaped(r.view) && Fits(r.params, r.view) && |r.view| == |v|
    ensures r.result.Fail? <==> s.Fail?
    ensures r.view != v ==> s.Ok? && s.value.Path?
  {
    match s
    case Fail(e) => Flip(Fail(e), v, ind)
    case Ok(Aborted) => Flip(Ok(NegInf), v, ind)
    case Ok(path) =>
      var w := Written(v, pos, path);
      var after := Recalc(ind, w, pos);
      Flip(if path.logProb == NegInf then Ok(NegInf) else Ok(Sub(logq, path.logProb)), w, after)
  }

  /**
   * Switching off: -infinity for a dormant node; when probed, the root's
   * NullPointerException from getBranchTypeProb (whose value is then
   * overwritten); otherwise the branch loses its changes and its
   * indicator and lambda become 0.
   */
  function TurnedOff(v: seq<NodeRec>, ind: Indicators, pos: int, probed: bool, logq: Double): (r: Flip)
    requires Shaped(v) && Fits(ind, v) && 0 <= pos < |v|
    ensures Shaped(r.view) && Fits(r.params, r.view) && |r.view| == |v|
    ensures r.result.Fail? <==> probed && v[pos].nodeType != 0 && v[pos].parent == -1
    ensures v[pos].nodeType == 0 ==> r.result == Ok(NegInf) && r.view == v && r.params == ind
    ensures r.result.Ok? && v[pos].nodeType != 0 ==>
      r.result == Ok(logq) && r.view[pos].changeCount == 0 && r.params.etas[pos] == 0 && r.params.lambdas[pos] == Finite(0.0)
  {
    if v[pos].nodeType == 0 then Flip(Ok(NegInf), v, ind)
    else if probed && v[pos].parent == -1 then Flip(Fail(NullPointer), v, ind)
    else Flip(Ok(logq), ClearIn(v, pos), Off(ind, pos))
  }

  /**
   * DormantBitFlip.proposal: an IllegalArgumentException from nextInt on
   * no indicators; then the indicator at pick mod dim is switched on with
   * uniformization retyping, or off after getBranchTypeProb.
   */
  function Flipped(v: seq<NodeRec>, ind: Indicators, ch: Chain, ln: real -> real, pick: nat, l: real, pba: real,
                   nVirt: int, timeDraws: seq<real>, typeDraws: seq<real>): (r: Flip)
    requires Shaped(v) && Fits(ind, v)
    ensures Shaped(r.view) && Fits(r.params, r.view) && |r.view| == |v|
    ensures r.result == Fail(IllegalArgument) <==> |v| == 0
  {
    var dim := |ind.etas|;
    if dim == 0 then Flip(Fail(IllegalArgument), v, ind)
    else
      var sum := EtaSum(ind.etas) as real;
      var pos := pick % dim;
      if ind.etas[pos] == 0 then
        Retyped(v, On(ind, pos, l), pos, Sampled(v, ch, ln, pos, pba, nVirt, timeDraws, typeDraws), OnRatio(ln, dim, sum))
      else
        TurnedOff(v, ind, pos, true, OffRatio(ln, dim, sum))
  }

  /**
   * DormantBitFlipOld.proposal: the same flip, counting the etas equal to
   * 1, retyping with the constrained layout under the freshly drawn
   * lambda, and switching off without getBranchTypeProb.
   */
  function FlippedOld(v: seq<NodeRec>, ind: Indicators, ch: Chain, ln: real -> real, pick: nat, l: real, pba: real,
                      nVirt: int, typeDraws: seq<real>, dormantDraws: seq<real>, activeDraws: seq<real>): (r: Flip)
    requires Shaped(v) && Fits(ind, v) && forall i :: 0 <= i < |v| ==> v[i].nodeType == 0 || v[i].nodeType == 1
    ensures Shaped(r.view) && Fits(r.params, r.view) && |r.view| == |v|
    ensures r.result == Fail(IllegalArgument) <==> |v| == 0
  {
    var dim := |ind.etas|;
    if dim == 0 then Flip(Fail(IllegalArgument), v, ind)
    else
      var sum := OnCount(ind.etas) as real;
      var pos := pick % dim;
      if ind.etas[pos] == 0 then
        Retyped(v, On(ind, pos, l), pos,
                Constrained(v, ch, ln, Some(l), pos, pba, nVirt, typeDraws, dormantDraws, activeDraws),
                OnRatio(ln, dim, sum))
      else
        TurnedOff(v, ind, pos, false, OffRatio(ln, dim, sum))
  }

  /* ---------------------------------------------------------------------
   * Properties.
   */

  /** Setting one eta moves the sum by the difference. */
  lemma {:induction false} EtaSumUpdate(etas: seq<int>, i: int, x: int)
    requires 0 <= i < |etas|
    ensures EtaSum(etas[i := x]) == EtaSum(etas) - etas[i] + x
    decreases |etas|
  {
    var n := |etas| - 1;
    var e := etas[i := x];
    assert e[..n] == if i == n then etas[..n] else etas[..n][i := x];
    if i < n {
      EtaSumUpdate(etas[..n], i, x);
    }
  }

  /** On indicators that are 0 or 1 the two operators' counts agree. */
  lemma {:induction false} OnesAreSummed(etas: seq<int>)
    requires AllBinary(etas)
    ensures EtaSum(etas) == OnCount(etas)
    decreases |etas|
  {
    if |etas| > 0 {
      var n := |etas| - 1;
      assert AllBinary(etas[..n]) by {
        forall j | 0 <= j < n ensures etas[..n][j] == 0 || etas[..n][j] == 1 {
          assert etas[..n][j] == etas[j];
        }
      }
      OnesAreSummed(etas[..n]);
    }
  }

  /**
   * Switching one of dim indicators on when sum of them are on, and
   * switching it back off when sum + 1 are on, take the logarithms of
   * reciprocal odds.
   */
  lemma OffUndoesOn(ln: real -> real, dim: int, sum: int)
    requires 0 <= sum < dim
    ensures var x := (dim - sum) as real / (sum + 1) as real;
      x > 0.0 && OnRatio(ln, dim, sum as real) == Neg(LogOf(ln, x)) &&
      OffRatio(ln, dim, (sum + 1) as real) == Neg(LogOf(ln, 1.0 / x))
  {
    var a := (dim - sum) as real;
    var b := (sum + 1) as real;
    assert dim as real - sum as real == a && sum as real + 1.0 == b;
    assert dim as real - (sum + 1) as real + 1.0 == a;
    assert b / a == 1.0 / (a / b);
  }

  /** A switch-on changes nothing but the branch, the indicator and the lambda at pos, and no node's type. */
  lemma RetypedIsLocal(v: seq<NodeRec>, ind: Indicators, pos: int, s: Result<Path>, logq: Double)
    requires Shaped(v) && Fits(ind, v) && 0 <= pos < |v|
    requires s.Ok? && s.value.Path? ==> |s.value.types| == |s.value.times|
    ensures var f := Retyped(v, ind, pos, s, logq);
      forall i :: 0 <= i < |v| ==>
        f.view[i].nodeType == v[i].nodeType && f.view[i].parent == v[i].parent &&
        (i != pos ==> f.view[i] == v[i] && f.params.lambdas[i] == ind.lambdas[i] && f.params.etas[i] == ind.etas[i])
  {
  }

  /** A switch-off changes nothing but the branch, the indicator and the lambda at pos, and no node's type. */
  lemma TurnedOffIsLocal(v: seq<NodeRec>, ind: Indicators, pos: int, probed: bool, logq: Double)
    requires Shaped(v) && Fits(ind, v) && 0 <= pos < |v|
    ensures var f := TurnedOff(v, ind, pos, probed, logq);
      forall i :: 0 <= i < |v| ==>
        f.view[i].nodeType == v[i].nodeType && f.view[i].parent == v[i].parent &&
        (i != pos ==> f.view[i] == v[i] && f.params.lambdas[i] == ind.lambdas[i] && f.params.etas[i] == ind.etas[i])
  {
  }

  /** DormantBitFlip touches the branch, the indicator and the lambda at pick mod dim and nothing else. */
  lemma FlipTouchesOneBranch(v: seq<NodeRec>, ind: Indicators, ch: Chain, ln: real -> real, pick: nat, l: real,
                             pba: real, nVirt: int, timeDraws: seq<real>, typeDraws: seq<real>)
    requires Shaped(v) && Fits(ind, v) && |v| > 0
    ensures var pos := pick % |v|;
      var f := Flipped(v, ind, ch, ln, pick, l, pba, nVirt, timeDraws, typeDraws);
      forall i :: 0 <= i < |v| && i != pos ==>
        f.view[i] == v[i] && f.params.lambdas[i] == ind.lambdas[i] && f.params.etas[i] == ind.etas[i]
  {
    var pos := pick % |v|;
    var sum := EtaSum(ind.etas) as real;
    if ind.etas[pos] == 0 {
      var s := Sampled(v, ch, ln, pos, pba, nVirt, timeDraws, typeDraws);
      RetypedIsLocal(v, On(ind, pos, l), pos, s, OnRatio(ln, |v|, sum));
    } else {
      TurnedOffIsLocal(v, ind, pos, true, OffRatio(ln, |v|, sum));
    }
  }

  /** DormantBitFlipOld touches the branch, the indicator and the lambda at pick mod dim and nothing else. */
  lemma FlipOldTouchesOneBranch(v: seq<NodeRec>, ind: Indicators, ch: Chain, ln: real -> real, pick: nat, l: real,
                                pba: real, nVirt: int, typeDraws: seq<real>, dormantDraws: seq<real>,
                                activeDraws: seq<real>)
    requires Shaped(v) && Fits(ind, v) && |v| > 0
    requires forall i :: 0 <= i < |v| ==> v[i].nodeType == 0 || v[i].nodeType == 1
    ensures var pos := pick % |v|;
      var f := FlippedOld(v, ind, ch, ln, pick, l, pba, nVirt, typeDraws, dormantDraws, activeDraws);
      forall i :: 0 <= i < |v| && i != pos ==>
        f.view[i] == v[i] && f.params.lambdas[i] == ind.lambdas[i] && f.params.etas[i] == ind.etas[i]
  {
    var pos := pick % |v|;
    var sum := OnCount(ind.etas) as real;
    if ind.etas[pos] == 0 {
      var s := Constrained(v, ch, ln, Some(l), pos, pba, nVirt, typeDraws, dormantDraws, activeDraws);
      RetypedIsLocal(v, On(ind, pos, l), pos, s, OnRatio(ln, |v|, sum));
    } else {
      TurnedOffIsLocal(v, ind, pos, false, OffRatio(ln, |v|, sum));
    }
  }

  /**
   * Switching off after a switch-on that returned a value restores a
   * bare branch whose indicator and lambda were 0: the tree and the
   * parameters are as before.
   */
  lemma RetypedThenOff(v: seq<NodeRec>, ind: Indicators, pos: int, l: real, s: Result<Path>, logq: Double,
                       probed: bool, logq2: Double)
    requires Shaped(v) && Fits(ind, v) && 0 <= pos < |v|
    requires s.Ok? && s.value.Path? ==> |s.value.types| == |s.value.times|
    requires ind.etas[pos] == 0 && ind.lambdas[pos] == Finite(0.0)
    requires v[pos].changeCount == 0 && v[pos].nodeType != 0 && (probed ==> v[pos].parent != -1)
    requires Retyped(v, On(ind, pos, l), pos, s, logq).result.Ok?
    ensures var f := Retyped(v, On(ind, pos, l), pos, s, logq);
      TurnedOff(f.view, f.params, pos, probed, logq2) == Flip(Ok(logq2), v, ind)
  {
    var f := Retyped(v, On(ind, pos, l), pos, s, logq);
    assert f.view[pos].nodeType == v[pos].nodeType && f.view[pos].parent == v[pos].parent;
    assert ClearIn(f.view, pos) == v by {
      assert Cleared(v[pos]) == v[pos];
      forall i | 0 <= i < |v| ensures ClearIn(f.view, pos)[i] == v[i] {
      }
    }
    assert Off(f.params, pos) == ind by {
      assert ind.lambdas[pos := Finite(0.0)] == ind.lambdas;
      assert ind.etas[pos := 0] == ind.etas;
    }
  }

  /** The eta a switch-on leaves is 0 or 1. */
  lemma RetypedEtaBinary(v: seq<NodeRec>, ind: Indicators, pos: int, l: real, s: Result<Path>, logq: Double)
    requires Shaped(v) && Fits(ind, v) && 0 <= pos < |v|
    requires s.Ok? && s.value.Path? ==> |s.value.types| == |s.value.times|
    ensures var f := Retyped(v, On(ind, pos, l), pos, s, logq);
      (f.params.etas[pos] == 0 || f.params.etas[pos] == 1) &&
      f.params.etas == ind.etas[pos := f.params.etas[pos]]
  {
  }

  /**
   * DormantBitFlip, applied twice with the same index to a bare active
   * branch whose indicator is off: when the first flip returns a value and
   * switches the indicator on, the second switches it off again, restores
   * the tree and the parameters, and returns the ratio for one more
   * indicator on.
   */
  lemma FlipOnThenOff(v: seq<NodeRec>, ind: Indicators, ch: Chain, ln: real -> real, pick: nat, l: real, pba: real,
                      nVirt: int, timeDraws: seq<real>, typeDraws: seq<real>, l2: real, pba2: real, nVirt2: int,
                      timeDraws2: seq<real>, typeDraws2: seq<real>)
    requires Shaped(v) && Fits(ind, v) && |v| > 0
    requires var pos := pick % |v|;
      ind.etas[pos] == 0 && ind.lambdas[pos] == Finite(0.0) && v[pos].changeCount == 0 && v[pos].nodeType != 0
    requires var f := Flipped(v, ind, ch, ln, pick, l, pba, nVirt, timeDraws, typeDraws);
      f.result.Ok? && f.params.etas[pick % |v|] != 0
    ensures var f := Flipped(v, ind, ch, ln, pick, l, pba, nVirt, timeDraws, typeDraws);
      Flipped(f.view, f.params, ch, ln, pick, l2, pba2, nVirt2, timeDraws2, typeDraws2) ==
        Flip(Ok(OffRatio(ln, |v|, (EtaSum(ind.etas) + 1) as real)), v, ind)
  {
    var pos := pick % |v|;
    var dim := |v|;
    var s := Sampled(v, ch, ln, pos, pba, nVirt, timeDraws, typeDraws);
    var logq := OnRatio(ln, dim, EtaSum(ind.etas) as real);
    var f := Flipped(v, ind, ch, ln, pick, l, pba, nVirt, timeDraws, typeDraws);
    assert f == Retyped(v, On(ind, pos, l), pos, s, logq);
    assert v[pos].parent != -1;
    RetypedEtaBinary(v, ind, pos, l, s, logq);
    EtaSumUpdate(ind.etas, pos, 1);
    var logq2 := OffRatio(ln, dim, EtaSum(f.params.etas) as real);
    RetypedThenOff(v, ind, pos, l, s, logq, true, logq2);
  }

  /**
   * DormantBitFlipOld: the same round trip on a bare active branch whose
   * indicator is off.
   */
  lemma FlipOldOnThenOff(v: seq<NodeRec>, ind: Indicators, ch: Chain, ln: real -> real, pick: nat, l: real, pba: real,
                         nVirt: int, typeDraws: seq<real>, dormantDraws: seq<real>, activeDraws: seq<real>,
                         l2: real, pba2: real, nVirt2: int, typeDraws2: seq<real>, dormantDraws2: seq<real>,
                         activeDraws2: seq<real>)
    requires Shaped(v) && Fits(ind, v) && |v| > 0
    requires forall i :: 0 <= i < |v| ==> v[i].nodeType == 0 || v[i].nodeType == 1
    requires var pos := pick % |v|;
      ind.etas[pos] == 0 && ind.lambdas[pos] == Finite(0.0) && v[pos].changeCount == 0 && v[pos].nodeType != 0
    requires var f := FlippedOld(v, ind, ch, ln, pick, l, pba, nVirt, typeDraws, dormantDraws, activeDraws);
      f.result.Ok? && f.params.etas[pick % |v|] == 1
    ensures var f := FlippedOld(v, ind, ch, ln, pick, l, pba, nVirt, typeDraws, dormantDraws, activeDraws);
      FlippedOld(f.view, f.params, ch, ln, pick, l2, pba2, nVirt2, typeDraws2, dormantDraws2, activeDraws2) ==
        Flip(Ok(OffRatio(ln, |v|, (OnCount(ind.etas) + 1) as real)), v, ind)
  {
    var pos := pick % |v|;
    var dim := |v|;
    var s := Constrained(v, ch, ln, Some(l), pos, pba, nVirt, typeDraws, dormantDraws, activeDraws);
    var logq := OnRatio(ln, dim, OnCount(ind.etas) as real);
    var f := FlippedOld(v, ind, ch, ln, pick, l, pba, nVirt, typeDraws, dormantDraws, activeDraws);
    assert f == Retyped(v, On(ind, pos, l), pos, s, logq);
    RetypedIsLocal(v, On(ind, pos, l), pos, s, logq);
    RetypedEtaBinary(v, ind, pos, l, s, logq);
    OnCountUpdate(ind.etas, pos);
    var logq2 := OffRatio(ln, dim, OnCount(f.params.etas) as real);
    RetypedThenOff(v, ind, pos, l, s, logq, false, logq2);
  }

  /** Switching an eta from 0 to 1 adds one to the count of ones. */
  lemma {:induction false} OnCountUpdate(etas: seq<int>, i: int)
    requires 0 <= i < |etas| && etas[i] == 0
    ensures OnCount(etas[i := 1]) == OnCount(etas) + 1
    decreases |etas|
  {
    var n := |etas| - 1;
    var e := etas[i := 1];
    assert e[..n] == if i == n then etas[..n] else etas[..n][i := 1];
    if i < n {
      OnCountUpdate(etas[..n], i);
    }
  }

  /**
   * After a switch-off the parameters are what recalculateLambda computes
   * for the cleared branch, when the branch has a length.
   */
  lemma OffIsRecalculated(v: seq<NodeRec>, ind: Indicators, pos: int, probed: bool, logq: Double)
    requires Shaped(v) && Fits(ind, v) && 0 <= pos < |v| && BranchLength(v, pos) != 0.0
    ensures var f := TurnedOff(v, ind, pos, probed, logq);
      f.result.Ok? && v[pos].nodeType != 0 ==> Recalc(f.params, f.view, pos) == f.params
  {
    var f := TurnedOff(v, ind, pos, probed, logq);
    if f.result.Ok? && v[pos].nodeType != 0 {
      var w := ClearIn(v, pos);
      assert f.view == w;
      assert w[pos] == Cleared(v[pos]);
      assert BranchLength(w, pos) == BranchLength(v, pos);
      assert BranchDormant(w, pos) == 0.0;
    }
  }

  /**
   * DormantBitFlipOld keeps the lambda it draws: once it chooses to
   * switch on the indicator of a branch with a length, the lambda it
   * leaves there is the drawn one, whether the retype fails, aborts or
   * writes a path (recalculateLambda then finds the drawn lambda again).
   */
  lemma OldOnKeepsDrawnLambda(v: seq<NodeRec>, ind: Indicators, ch: Chain, ln: real -> real, pick: nat, l: real,
                              pba: real, nVirt: int, typeDraws: seq<real>, dormantDraws: seq<real>,
                              activeDraws: seq<real>)
    requires Shaped(v) && Fits(ind, v) && |v| > 0
    requires forall i :: 0 <= i < |v| ==> v[i].nodeType == 0 || v[i].nodeType == 1
    requires ind.etas[pick % |v|] == 0 && BranchLength(v, pick % |v|) != 0.0
    ensures FlippedOld(v, ind, ch, ln, pick, l, pba, nVirt, typeDraws, dormantDraws, activeDraws).params.lambdas[pick % |v|] == Finite(l)
  {
    var pos := pick % |v|;
    var s := Constrained(v, ch, ln, Some(l), pos, pba, nVirt, typeDraws, dormantDraws, activeDraws);
    ConstrainedProperties.ConstrainedKeepsLambda(v, ch, ln, Some(l), pos, pba, nVirt, typeDraws, dormantDraws, activeDraws);
    if s.Ok? && s.value.Path? {
      var w := Written(v, pos, s.value);
      assert Recalc(On(ind, pos, l), w, pos).lambdas[pos] == DormantFraction(w, pos);
    }
  }

  /* ---------------------------------------------------------------------
   * The operators.
   */

  /** The summing loop of DormantBitFlip. */
  method SumEtas(etas: array<int>) returns (sum: real)
    ensures sum == EtaSum(etas[..]) as real
  {
    sum := 0.0;
    var i := 0;
    while i < etas.Length
      invariant 0 <= i <= etas.Length
      invariant sum == EtaSum(etas[..i]) as real
    {
      assert etas[..i + 1][..i] == etas[..i];
      sum := sum + etas[i] as real;
      i := i + 1;
    }
    assert etas[..i] == etas[..];
  }

  /** The counting loop of DormantBitFlipOld. */
  method CountOnes(etas: array<int>) returns (sum: real)
    ensures sum == OnCount(etas[..]) as real
  {
    sum := 0.0;
    var i := 0;
    while i < etas.Length
      invariant 0 <= i <= etas.Length
      invariant sum == OnCount(etas[..i]) as real
    {
      assert etas[..i + 1][..i] == etas[..i];
      if etas[i] == 1 {
        sum := sum + 1.0;
      }
      i := i + 1;
    }
    assert etas[..i] == etas[..];
  }

  /** DormantBitFlip.proposal. */
  method Proposal(t: SeedbankTree, lambdas: array<Double>, etas: array<int>, ch: Chain, ln: real -> real,
                  pick: nat, l: real, pba: real, nVirt: int, timeDraws: seq<real>, typeDraws: seq<real>)
    returns (r: Result<Double>)
    requires t.Wf() && lambdas.Length == |t.nodes| && etas.Length == |t.nodes|
    modifies t.nodes, lambdas, etas
    ensures t.Wf()
    ensures var f := Flipped(old(t.View()), Indicators(old(lambdas[..]), old(etas[..])), ch, ln, pick, l, pba, nVirt,
                             timeDraws, typeDraws);
      r == f.result && t.View() == f.view && Indicators(lambdas[..], etas[..]) == f.params
  {
    var dim := etas.Length;
    var sum := SumEtas(etas);
    if dim == 0 {
      return Fail(IllegalArgument);
    }
    var pos := pick % dim;
    if etas[pos] == 0 {
      r := SwitchOn(t, lambdas, etas, ch, ln, pos, l, pba, nVirt, timeDraws, typeDraws, OnRatio(ln, dim, sum));
    } else {
      r := SwitchOff(t, lambdas, etas, ch, ln, pos, pba, true, OffRatio(ln, dim, sum));
    }
  }

  /** DormantBitFlipOld.proposal. */
  method ProposalOld(t: SeedbankTree, lambdas: array<Double>, etas: array<int>, ch: Chain, ln: real -> real,
                     pick: nat, l: real, pba: real, nVirt: int,
                     typeDraws: seq<real>, dormantDraws: seq<real>, activeDraws: seq<real>)
    returns (r: Result<Double>)
    requires t.Wf() && lambdas.Length == |t.nodes| && etas.Length == |t.nodes|
    requires forall i :: 0 <= i < |t.nodes| ==> t.View()[i].nodeType == 0 || t.View()[i].nodeType == 1
    modifies t.nodes, lambdas, etas
    ensures t.Wf()
    ensures var f := FlippedOld(old(t.View()), Indicators(old(lambdas[..]), old(etas[..])), ch, ln, pick, l, pba, nVirt,
                                typeDraws, dormantDraws, activeDraws);
      r == f.result && t.View() == f.view && Indicators(lambdas[..], etas[..]) == f.params
  {
    var dim := etas.Length;
    var sum := CountOnes(etas);
    if dim == 0 {
      return Fail(IllegalArgument);
    }
    var pos := pick % dim;
    if etas[pos] == 0 {
      r := SwitchOnOld(t, lambdas, etas, ch, ln, pos, l, pba, nVirt, typeDraws, dormantDraws, activeDraws,
                       OnRatio(ln, dim, sum));
    } else {
      r := SwitchOff(t, lambdas, etas, ch, ln, pos, pba, false, OffRatio(ln, dim, sum));
    }
  }

  /**
   * What the switch-on returns and leaves, given the retype's outcome s
   * in the form the retype methods state it.
   */
  lemma RetypedFromOutcome(v: seq<NodeRec>, ind: Indicators, pos: int, s: Result<Path>, logq: Double,
                           retype: Result<Double>, r: Result<Double>, w: seq<NodeRec>, after: Indicators)
    requires Shaped(v) && Fits(ind, v) && 0 <= pos < |v|
    requires s.Ok? && s.value.Path? ==> |s.value.types| == |s.value.times|
    requires retype == Returned(s)
    requires r == if retype.Fail? then Fail(retype.error) else if retype.value == NegInf then Ok(NegInf)
                  else Ok(Sub(logq, retype.value))
    requires s.Ok? && s.value.Path? ==> w == Written(v, pos, s.value) && after == Recalc(ind, w, pos)
    requires !(s.Ok? && s.value.Path?) ==> w == v && after == ind
    ensures Retyped(v, ind, pos, s, logq) == Flip(r, w, after)
  {
  }

  /** The switch-on branch of DormantBitFlip: set the indicator and lambda, then retype. */
  method SwitchOn(t: SeedbankTree, lambdas: array<Double>, etas: array<int>, ch: Chain, ln: real -> real,
                  pos: int, l: real, pba: real, nVirt: int, timeDraws: seq<real>, typeDraws: seq<real>, logq: Double)
    returns (r: Result<Double>)
    requires t.Wf() && lambdas.Length == |t.nodes| && etas.Length == |t.nodes| && 0 <= pos < |t.nodes|
    modifies t.nodes[pos], lambdas, etas
    ensures t.Wf()
    ensures var v := old(t.View());
      var f := Retyped(v, On(Indicators(old(lambdas[..]), old(etas[..])), pos, l), pos,
                       Sampled(v, ch, ln, pos, pba, nVirt, timeDraws, typeDraws), logq);
      r == f.result && t.View() == f.view && Indicators(lambdas[..], etas[..]) == f.params
  {
    SetBoth(lambdas, etas, pos, Finite(l), 1);
    r := RetypeFrom(t, lambdas, etas, ch, ln, pos, pba, nVirt, timeDraws, typeDraws, logq);
  }

  /** The switch-on branch of DormantBitFlipOld: set the indicator and lambda, then retype under that lambda. */
  method SwitchOnOld(t: SeedbankTree, lambdas: array<Double>, etas: array<int>, ch: Chain, ln: real -> real,
                     pos: int, l: real, pba: real, nVirt: int,
                     typeDraws: seq<real>, dormantDraws: seq<real>, activeDraws: seq<real>, logq: Double)
    returns (r: Result<Double>)
    requires t.Wf() && lambdas.Length == |t.nodes| && etas.Length == |t.nodes| && 0 <= pos < |t.nodes|
    requires t.View()[pos].nodeType == 0 || t.View()[pos].nodeType == 1
    modifies t.nodes[pos], lambdas, etas
    ensures t.Wf()
    ensures var v := old(t.View());
      var f := Retyped(v, On(Indicators(old(lambdas[..]), old(etas[..])), pos, l), pos,
                       Constrained(v, ch, ln, Some(l), pos, pba, nVirt, typeDraws, dormantDraws, activeDraws), logq);
      r == f.result && t.View() == f.view && Indicators(lambdas[..], etas[..]) == f.params
  {
    SetBoth(lambdas, etas, pos, Finite(l), 1);
    r := ConstrainedRetypeFrom(t, lambdas, etas, ch, ln, pos, pba, nVirt, typeDraws, dormantDraws, activeDraws, logq);
  }

  /**
   * retypeBranch on pos, then -infinity for a -infinity path and
   * otherwise logq less the path's log probability.
   */
  method RetypeFrom(t: SeedbankTree, lambdas: array<Double>, etas: array<int>, ch: Chain, ln: real -> real,
                    pos: int, pba: real, nVirt: int, timeDraws: seq<real>, typeDraws: seq<real>, logq: Double)
    returns (r: Result<Double>)
    requires t.Wf() && lambdas.Length == |t.nodes| && etas.Length == |t.nodes| && 0 <= pos < |t.nodes|
    modifies t.nodes[pos], lambdas, etas
    ensures t.Wf()
    ensures var v := old(t.View());
      var f := Retyped(v, Indicators(old(lambdas[..]), old(etas[..])), pos,
                       Sampled(v, ch, ln, pos, pba, nVirt, timeDraws, typeDraws), logq);
      r == f.result && t.View() == f.view && Indicators(lambdas[..], etas[..]) == f.params
  {
    ghost var v := t.View();
    ghost var ind := Indicators(lambdas[..], etas[..]);
    assert ParamsOf(lambdas, etas) == Some(ind);
    ghost var s := Sampled(v, ch, ln, pos, pba, nVirt, timeDraws, typeDraws);
    var retype := RetypeBranch(t, lambdas, etas, ch, ln, pos, pba, nVirt, timeDraws, typeDraws);
    if retype.Fail? {
      r := Fail(retype.error);
    } else if retype.value == NegInf {
      r := Ok(NegInf);
    } else {
      r := Ok(Sub(logq, retype.value));
    }
    RetypedFromOutcome(v, ind, pos, s, logq, retype, r, t.View(), Indicators(lambdas[..], etas[..]));
  }

  /**
   * constrainedRetypeBranch on pos under the lambda stored there, then
   * -infinity for a -infinity path and otherwise logq less the path's log
   * probability.
   */
  method ConstrainedRetypeFrom(t: SeedbankTree, lambdas: array<Double>, etas: array<int>, ch: Chain, ln: real -> real,
                               pos: int, pba: real, nVirt: int,
                               typeDraws: seq<real>, dormantDraws: seq<real>, activeDraws: seq<real>, logq: Double)
    returns (r: Result<Double>)
    requires t.Wf() && lambdas.Length == |t.nodes| && etas.Length == |t.nodes| && 0 <= pos < |t.nodes|
    requires t.View()[pos].nodeType == 0 || t.View()[pos].nodeType == 1
    requires lambdas[pos].Finite?
    modifies t.nodes[pos], lambdas, etas
    ensures t.Wf()
    ensures var v := old(t.View());
      var f := Retyped(v, Indicators(old(lambdas[..]), old(etas[..])), pos,
                       Constrained(v, ch, ln, Some(old(lambdas[pos]).v), pos, pba, nVirt, typeDraws, dormantDraws,
                                   activeDraws), logq);
      r == f.result && t.View() == f.view && Indicators(lambdas[..], etas[..]) == f.params
  {
    ghost var v := t.View();
    ghost var ind := Indicators(lambdas[..], etas[..]);
    assert ParamsOf(lambdas, etas) == Some(ind) && LambdaIn(lambdas, pos) == Some(lambdas[pos].v);
    ghost var s := Constrained(v, ch, ln, Some(lambdas[pos].v), pos, pba, nVirt, typeDraws, dormantDraws, activeDraws);
    var retype := ConstrainedRetypeBranch(t, lambdas, etas, ch, ln, pos, pba, nVirt, typeDraws, dormantDraws, activeDraws);
    if retype.Fail? {
      r := Fail(retype.error);
    } else if retype.value == NegInf {
      r := Ok(NegInf);
    } else {
      r := Ok(Sub(logq, retype.value));
    }
    RetypedFromOutcome(v, ind, pos, s, logq, retype, r, t.View(), Indicators(lambdas[..], etas[..]));
  }

  /** The two parameter writes of a flip: the lambda and the indicator at pos. */
  method SetBoth(lambdas: array<Double>, etas: array<int>, pos: int, lambda: Double, eta: int)
    requires 0 <= pos < lambdas.Length && 0 <= pos < etas.Length
    modifies lambdas, etas
    ensures lambdas[..] == old(lambdas[..])[pos := lambda] && etas[..] == old(etas[..])[pos := eta]
  {
    etas[pos] := eta;
    lambdas[pos] := lambda;
  }

  /**
   * The switch-off branch of both operators; probed says whether
   * getBranchTypeProb is evaluated first, as DormantBitFlip does.
   */
  method SwitchOff(t: SeedbankTree, lambdas: array<Double>, etas: array<int>, ch: Chain, ln: real -> real,
                   pos: int, pba: real, probed: bool, logq: Double)
    returns (r: Result<Double>)
    requires t.Wf() && lambdas.Length == |t.nodes| && etas.Length == |t.nodes| && 0 <= pos < |t.nodes|
    modifies t.nodes[pos], lambdas, etas
    ensures t.Wf()
    ensures var f := TurnedOff(old(t.View()), Indicators(old(lambdas[..]), old(etas[..])), pos, probed, logq);
      r == f.result && t.View() == f.view && Indicators(lambdas[..], etas[..]) == f.params
  {
    ghost var v := t.View();
    ghost var ind := Indicators(lambdas[..], etas[..]);
    assert v[pos] == t.nodes[pos].Record();
    if t.nodes[pos].nodeType == 0 {
      return Ok(NegInf);
    }
    if probed {
      var prob := GetBranchTypeProb(t, ch, ln, pos, pba);
      if prob.Fail? {
        assert v[pos].parent == -1;
        return Fail(prob.error);
      }
    }
    ClearBranch(t, lambdas, etas, pos);
    r := Ok(logq);
  }

  /** The writes of a switch-off: the indicator and lambda at pos become 0 and the branch loses its changes. */
  method ClearBranch(t: SeedbankTree, lambdas: array<Double>, etas: array<int>, pos: int)
    requires t.Wf() && lambdas.Length == |t.nodes| && etas.Length == |t.nodes| && 0 <= pos < |t.nodes|
    modifies t.nodes[pos], lambdas, etas
    ensures t.Wf()
    ensures t.View() == ClearIn(old(t.View()), pos)
    ensures Indicators(lambdas[..], etas[..]) == Off(Indicators(old(lambdas[..]), old(etas[..])), pos)
  {
    SetBoth(lambdas, etas, pos, Finite(0.0), 0);
    ClearAt(t, pos);
  }
}
