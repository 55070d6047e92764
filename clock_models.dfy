// Branch-rate clock models for seedbank trees: per-branch substitution-rate
// multipliers from the dormant and active parts of each branch
// (SeedbankClockModel, SeedbankClockModelOld), from the branch's dormant
// fraction and indicator (SeedbankClockModelSNS), or from the node's type in
// the older node encoding (SeedbankClockModelX).
//
// The tree is read through its snapshot: an arena of node records indexed
// by node number, with -1 for a missing parent.

module ClockModels {
  import opened Wrappers
  import opened Doubles
  import opened SeedbankNodes
  import opened SeedbankTrees
  import opened TransitionModels
  import opened TypeLengths

  /** The rate SeedbankClockModelOld gives a non-root branch: (d / L) * scaling + a / L in IEEE doubles. */
  function ScaledRate(dormant: real, active: real, length: real, scaling: real): Double
  {
    Add(Mul(Div(dormant, length), scaling), Div(active, length))
  }

  /** The rate SeedbankClockModel gives a non-root branch: (d / L) * 1 + (a / L) * 1. */
  function UnitWeightedRate(dormant: real, active: real, length: real): Double
  {
    Add(Mul(Div(dormant, length), 1.0), Mul(Div(active, length), 1.0))
  }

  /** The rate of branch x: 1 at the root, a RuntimeException for a type other than 0/1, else the scaled rate. */
  function BranchRate(v: seq<NodeRec>, x: int, scaling: real): Result<Double>
    requires Shaped(v) && 0 <= x < |v|
  {
    if v[x].parent == -1 then Ok(Finite(1.0))
    else if !(v[x].nodeType == 0 || v[x].nodeType == 1) then Fail(Runtime)
    else
      var top := v[v[x].parent].height;
      Ok(ScaledRate(FlipLength(0, v[x].nodeType, v[x].height, v[x].changeTimes, top),
                    FlipLength(1, v[x].nodeType, v[x].height, v[x].changeTimes, top),
                    top - v[x].height, scaling))
  }

  /** SeedbankClockModel's formula is SeedbankClockModelOld's with scaling 1. */
  lemma UnitWeightIsScalingOne(dormant: real, active: real, length: real)
    ensures UnitWeightedRate(dormant, active, length) == ScaledRate(dormant, active, length, 1.0)
  {
  }

  /**
   * With weight 1 on both parts the rate is exactly 1 on every branch of
   * non-zero length (the two parts always add up to the branch length), and
   * NaN on a branch of length 0.
   */
  lemma UnitRate(dormant: real, active: real, length: real)
    requires dormant + active == length
    ensures length != 0.0 ==> ScaledRate(dormant, active, length, 1.0) == Finite(1.0)
    ensures length == 0.0 ==> ScaledRate(dormant, active, length, 1.0) == NaN
  {
    if length != 0.0 {
      assert dormant / length + active / length == (dormant + active) / length == 1.0;
    }
  }

  /**
   * With a scaling in [0, 1], a branch of positive length whose parts are
   * non-negative and add up to its length gets a rate between the scaling
   * and 1; a branch of length 0 gets NaN.
   */
  lemma ScaledRateBounds(dormant: real, active: real, length: real, scaling: real)
    requires dormant + active == length && dormant >= 0.0 && active >= 0.0
    requires 0.0 <= scaling <= 1.0
    ensures length > 0.0 ==> ScaledRate(dormant, active, length, scaling).Finite?
    ensures length > 0.0 ==> scaling <= ScaledRate(dormant, active, length, scaling).v <= 1.0
    ensures length == 0.0 ==> ScaledRate(dormant, active, length, scaling) == NaN
  {
    if length > 0.0 {
      var f := dormant / length;
      assert 0.0 <= f <= 1.0;
      assert active == length - dormant;
      assert (length - dormant) / length == length / length - dormant / length;
      assert active / length == 1.0 - f;
      assert f * scaling <= f;
      assert f * scaling + (1.0 - f) == 1.0 - f * (1.0 - scaling);
      assert f * (1.0 - scaling) <= 1.0 - scaling;
    }
  }

  /**
   * Every non-root branch of a binary type whose change times lie in order
   * between its ends: its rate under SeedbankClockModel is 1 (NaN for a
   * zero-length branch), and under SeedbankClockModelOld with a scaling in
   * [0, 1] it lies between the scaling and 1.
   */
  lemma BranchRateProperties(v: seq<NodeRec>, x: int, scaling: real)
    requires Shaped(v) && 0 <= x < |v| && v[x].parent != -1
    requires v[x].nodeType == 0 || v[x].nodeType == 1
    requires BranchTimesOrdered(v[v[x].parent].height, v[x])
    ensures v[v[x].parent].height > v[x].height ==> BranchRate(v, x, 1.0) == Ok(Finite(1.0))
    ensures v[v[x].parent].height == v[x].height ==> BranchRate(v, x, 1.0) == Ok(NaN)
    ensures 0.0 <= scaling <= 1.0 && v[v[x].parent].height > v[x].height ==>
      BranchRate(v, x, scaling).Ok? && BranchRate(v, x, scaling).value.Finite? &&
      scaling <= BranchRate(v, x, scaling).value.v <= 1.0
  {
    var n := v[x];
    var top := v[n.parent].height;
    FlipPartition(n.nodeType, n.height, n.changeTimes, top);
    OrderedBranchNonNegative(n, top);
    var d := FlipLength(0, n.nodeType, n.height, n.changeTimes, top);
    var a := FlipLength(1, n.nodeType, n.height, n.changeTimes, top);
    UnitRate(d, a, top - n.height);
    if 0.0 <= scaling <= 1.0 {
      ScaledRateBounds(d, a, top - n.height, scaling);
    }
  }

  /*
   * calculateRates(node) visits the subtree in preorder: it writes the
   * node's rate, and for an internal node recurses into getLeft() and then
   * getRight(). A node with a single child has a null right child, so the
   * second call dereferences null. `fuel` bounds the recursion depth (a tree
   * of n nodes is never deeper than n).
   */

  /** The nodes calculateRates(node) writes, in the order it writes them. */
  function Preorder(v: seq<NodeRec>, node: int, fuel: nat): (r: seq<int>)
    requires Shaped(v) && 0 <= node < |v|
    ensures forall k :: 0 <= k < |r| ==> 0 <= r[k] < |v|
    decreases fuel
  {
    if fuel == 0 then []
    else if |v[node].children| == 0 then [node]
    else if |v[node].children| == 1 then [node] + Preorder(v, v[node].children[0], fuel - 1)
    else [node] + Preorder(v, v[node].children[0], fuel - 1) + Preorder(v, v[node].children[1], fuel - 1)
  }

  /** A node at which calculateRates throws: a non-root node of another type than 0/1, or a node with one child. */
  predicate Throws(v: seq<NodeRec>, x: int)
    requires 0 <= x < |v|
  {
    (v[x].parent != -1 && !(v[x].nodeType == 0 || v[x].nodeType == 1)) || |v[x].children| == 1
  }

  /** Every node of `order` holds its branch rate in `rates`. */
  predicate AllWritten(v: seq<NodeRec>, rates: seq<Double>, order: seq<int>, scaling: real)
    requires Shaped(v) && |rates| == |v|
  {
    forall i :: 0 <= i < |v| && i in order ==>
      BranchRate(v, i, scaling).Ok? && rates[i] == BranchRate(v, i, scaling).value
  }

  predicate NoneThrows(v: seq<NodeRec>, order: seq<int>)
  {
    forall i :: 0 <= i < |v| && i in order ==> !Throws(v, i)
  }

  /** Entries written earlier survive a later walk that leaves them alone or rewrites them with the same rate. */
  lemma WrittenExtends(v: seq<NodeRec>, before: seq<Double>, after: seq<Double>, done: seq<int>, walk: seq<int>, scaling: real)
    requires Shaped(v) && |before| == |v| && |after| == |v|
    requires AllWritten(v, before, done, scaling) && AllWritten(v, after, walk, scaling)
    requires forall i :: 0 <= i < |v| && i !in walk ==> after[i] == before[i]
    ensures AllWritten(v, after, done + walk, scaling)
  {
  }

  /** The first half of calculateRates(node): the node's own entry, or the exception its branch raises. */
  method WriteRate(rates: array<Double>, v: seq<NodeRec>, node: int, scaling: real) returns (r: Outcome)
    requires Shaped(v) && 0 <= node < |v| && rates.Length == |v|
    modifies rates
    ensures r.Failed? <==> BranchRate(v, node, scaling).Fail?
    ensures r.Failed? ==> r.error == Runtime && Throws(v, node)
    ensures r == Done ==> rates[node] == BranchRate(v, node, scaling).value
    ensures forall i :: 0 <= i < |v| && i != node ==> rates[i] == old(rates[i])
  {
    var n := v[node];
    if n.parent == -1 {
      rates[node] := Finite(1.0);
    } else {
      var lengths := BranchLengths(n, v[n.parent].height);
      if lengths.None? {
        return Failed(Runtime);
      }
      rates[node] := ScaledRate(lengths.value.0, lengths.value.1, v[n.parent].height - n.height, scaling);
    }
    return Done;
  }

  /**
   * calculateRates: fills `rates` for the subtree below `node`. It fails
   * (RuntimeException or NullPointerException) exactly when some node of the
   * walk throws; when it succeeds every visited node holds its branch rate.
   * Entries of nodes outside the walk never change.
   */
  method CalculateRates(rates: array<Double>, v: seq<NodeRec>, node: int, scaling: real, fuel: nat)
    returns (r: Outcome)
    requires Shaped(v) && 0 <= node < |v| && rates.Length == |v|
    modifies rates
    ensures r.Failed? <==> !NoneThrows(v, Preorder(v, node, fuel))
    ensures r.Failed? ==> r.error == Runtime || r.error == NullPointer
    ensures r == Done ==> AllWritten(v, rates[..], Preorder(v, node, fuel), scaling)
    ensures forall i :: 0 <= i < |v| && i !in Preorder(v, node, fuel) ==> rates[i] == old(rates[i])
    decreases fuel
  {
    if fuel == 0 {
      return Done;
    }
    var n := v[node];
    var own := WriteRate(rates, v, node, scaling);
    if own.Failed? {
      assert node in Preorder(v, node, fuel);
      return own;
    }
    assert AllWritten(v, rates[..], [node], scaling);
    if |n.children| == 0 {
      return Done;
    }
    ghost var afterNode := rates[..];
    var left := CalculateRates(rates, v, n.children[0], scaling, fuel - 1);
    ghost var lo := Preorder(v, n.children[0], fuel - 1);
    if left.Failed? {
      return left;
    }
    WrittenExtends(v, afterNode, rates[..], [node], lo, scaling);
    if |n.children| == 1 {
      assert node in Preorder(v, node, fuel) && Throws(v, node);
      return Failed(NullPointer);
    }
    ghost var afterLeft := rates[..];
    var right := CalculateRates(rates, v, n.children[1], scaling, fuel - 1);
    ghost var ro := Preorder(v, n.children[1], fuel - 1);
    if right.Failed? {
      return right;
    }
    WrittenExtends(v, afterLeft, rates[..], [node] + lo, ro, scaling);
    return Done;
  }

  /** setBounds(max(0, lower), min(1, upper)) on a RealParameter; other functions are left alone. */
  function ClampToUnit(p: Param): (r: Param)
    ensures r.value == p.value && (r.RealParam? <==> p.RealParam?)
    ensures r.RealParam? ==> r.lower >= 0.0 && r.upper <= 1.0
    ensures r.RealParam? ==> (r.lower == p.lower <==> p.lower >= 0.0) && (r.upper == p.upper <==> p.upper <= 1.0)
  {
    match p
    case RealParam(v, lo, hi) => RealParam(v, if lo >= 0.0 then lo else 0.0, if hi <= 1.0 then hi else 1.0)
    case OtherFunction(v) => p
  }

  /**
   * SeedbankClockModelOld: branch rates weighted by the dormant scaling,
   * cached in `rates` (one entry per node) until requiresRecalculation,
   * store or restore sets `recompute`.
   */
  class SeedbankClockModelOld {
    var dormantScaling: Param
    var recompute: bool
    var rates: array<Double>
    /** The tree and scaling value the cache was last filled from. */
    ghost var cachedTree: seq<NodeRec>
    ghost var cachedRoot: int
    ghost var cachedScaling: real

    ghost predicate Valid()
      reads this, rates
    {
      !recompute ==>
        Shaped(cachedTree) && 0 <= cachedRoot < |cachedTree| && |cachedTree| == rates.Length &&
        AllWritten(cachedTree, rates[..], Preorder(cachedTree, cachedRoot, |cachedTree|), cachedScaling)
    }

    /** initAndValidate: clamps the scaling's bounds into [0, 1] and allocates one rate per node. */
    constructor (scaling: Param, nodeCount: nat)
      ensures Valid() && recompute
      ensures dormantScaling == ClampToUnit(scaling) && rates.Length == nodeCount && fresh(rates)
    {
      dormantScaling := ClampToUnit(scaling);
      recompute := true;
      rates := new Double[nodeCount](_ => Finite(0.0));
    }

    /**
     * getRateForBranch: refills the cache from the current tree when
     * `recompute` is set (an exception leaves it set), then reads the entry
     * of node x.
     */
    method GetRateForBranch(v: seq<NodeRec>, root: int, x: int) returns (r: Result<Double>)
      requires Valid() && Shaped(v) && 0 <= root < |v| && 0 <= x < |v| && rates.Length == |v|
      modifies this, rates
      ensures Valid() && rates == old(rates) && dormantScaling == old(dormantScaling)
      ensures old(recompute) ==> (r.Ok? <==> NoneThrows(v, Preorder(v, root, |v|)))
      ensures old(recompute) && r.Ok? ==> cachedTree == v && cachedRoot == root && cachedScaling == dormantScaling.value
      ensures !old(recompute) ==> r == Ok(old(rates[x])) && rates[..] == old(rates[..]) && !recompute
      ensures r.Fail? ==> recompute && (r.error == Runtime || r.error == NullPointer)
      ensures r.Ok? ==> !recompute && r.value == rates[x]
      ensures r.Ok? && x in Preorder(cachedTree, cachedRoot, |cachedTree|) ==>
        BranchRate(cachedTree, x, cachedScaling) == Ok(r.value)
    {
      if recompute {
        var scaling := dormantScaling.value;
        var o := CalculateRates(rates, v, root, scaling, |v|);
        if o.Failed? {
          return Fail(o.error);
        }
        cachedTree, cachedRoot, cachedScaling := v, root, scaling;
        recompute := false;
      }
      r := Ok(rates[x]);
    }

    /** requiresRecalculation, store and restore all mark the cache stale. */
    method RequiresRecalculation() returns (dirty: bool)
      modifies this
      ensures recompute && dirty && Valid()
      ensures rates == old(rates) && dormantScaling == old(dormantScaling)
    {
      recompute := true;
      return true;
    }

    method Store()
      modifies this
      ensures recompute && Valid() && rates == old(rates) && dormantScaling == old(dormantScaling)
    {
      recompute := true;
    }

    method Restore()
      modifies this
      ensures recompute && Valid() && rates == old(rates) && dormantScaling == old(dormantScaling)
    {
      recompute := true;
    }
  }

  /**
   * SeedbankClockModel: the same lazy cache with weight 1 on both parts. Its
   * initAndValidate clamps the lower bounds of activeRate and dormantRate at
   * 0 (neither is read again) and never allocates `rates`.
   */
  class SeedbankClockModel {
    var activeRate: Param
    var dormantRate: Param
    var recompute: bool
    var rates: array?<Double>
    ghost var cachedTree: seq<NodeRec>
    ghost var cachedRoot: int

    ghost predicate Valid()
      reads this, rates
    {
      !recompute ==>
        rates != null && Shaped(cachedTree) && 0 <= cachedRoot < |cachedTree| && |cachedTree| == rates.Length &&
        AllWritten(cachedTree, rates[..], Preorder(cachedTree, cachedRoot, |cachedTree|), 1.0)
    }

    /** initAndValidate as written: `rates` stays null. */
    constructor (active: Param, dormant: Param)
      ensures Valid() && recompute && rates == null
      ensures activeRate == ClampLowerToZero(active) && dormantRate == ClampLowerToZero(dormant)
    {
      activeRate := ClampLowerToZero(active);
      dormantRate := ClampLowerToZero(dormant);
      recompute := true;
      rates := null;
    }

    /** initAndValidate with the allocation SeedbankClockModelOld makes: one rate per node. */
    constructor Allocating(active: Param, dormant: Param, nodeCount: nat)
      ensures Valid() && recompute && rates != null && rates.Length == nodeCount && fresh(rates)
      ensures activeRate == ClampLowerToZero(active) && dormantRate == ClampLowerToZero(dormant)
    {
      activeRate := ClampLowerToZero(active);
      dormantRate := ClampLowerToZero(dormant);
      recompute := true;
      rates := new Double[nodeCount](_ => Finite(0.0));
    }

    /**
     * getRateForBranch: with `rates` null the first write of calculateRates
     * (the root's entry) throws a NullPointerException, so after the
     * as-written initAndValidate every call fails.
     */
    method GetRateForBranch(v: seq<NodeRec>, root: int, x: int) returns (r: Result<Double>)
      requires Valid() && Shaped(v) && 0 <= root < |v| && 0 <= x < |v|
      requires rates != null ==> rates.Length == |v|
      modifies this, rates
      ensures Valid() && rates == old(rates)
      ensures rates == null ==> r == Fail(NullPointer) && recompute
      ensures rates != null && old(recompute) ==> (r.Ok? <==> NoneThrows(v, Preorder(v, root, |v|)))
      ensures r.Ok? && old(recompute) ==> cachedTree == v && cachedRoot == root
      ensures r.Ok? ==> rates != null && !recompute && r.value == rates[x]
      ensures r.Ok? && x in Preorder(cachedTree, cachedRoot, |cachedTree|) ==>
        BranchRate(cachedTree, x, 1.0) == Ok(r.value)
    {
      if recompute {
        if rates == null {
          return Fail(NullPointer);
        }
        var o := CalculateRates(rates, v, root, 1.0, |v|);
        if o.Failed? {
          return Fail(o.error);
        }
        cachedTree, cachedRoot := v, root;
        recompute := false;
      }
      r := Ok(rates[x]);
    }

    method RequiresRecalculation() returns (dirty: bool)
      modifies this
      ensures recompute && dirty && Valid() && rates == old(rates)
    {
      recompute := true;
      return true;
    }
  }

  /**
   * SeedbankClockModelSNS.getRateForBranch: 1 at the root and on a branch
   * whose indicator eta is 0, otherwise 1 - (1 - alpha) * lambda. The
   * meanRate input is not read.
   */
  function SnsRate(isRoot: bool, nr: int, etas: seq<int>, lambdas: seq<real>, alpha: real): (r: Result<real>)
    ensures isRoot ==> r == Ok(1.0)
    ensures !isRoot && 0 <= nr < |etas| && etas[nr] == 0 ==> r == Ok(1.0)
    ensures r.Fail? ==> r.error == IndexOutOfBounds
  {
    if isRoot then Ok(1.0)
    else if !(0 <= nr < |etas|) then Fail(IndexOutOfBounds)
    else if etas[nr] == 0 then Ok(1.0)
    else if !(0 <= nr < |lambdas|) then Fail(IndexOutOfBounds)
    else Ok(1.0 - (1.0 - alpha) * lambdas[nr])
  }

  /**
   * A dormant branch runs at the dormant multiplier alpha when fully
   * dormant, at 1 when not at all, and in between for a fraction in [0, 1].
   */
  lemma SnsRateRange(nr: int, etas: seq<int>, lambdas: seq<real>, alpha: real)
    requires 0 <= nr < |etas| && nr < |lambdas| && etas[nr] != 0
    ensures SnsRate(false, nr, etas, lambdas, alpha).Ok?
    ensures lambdas[nr] == 1.0 ==> SnsRate(false, nr, etas, lambdas, alpha).value == alpha
    ensures lambdas[nr] == 0.0 ==> SnsRate(false, nr, etas, lambdas, alpha).value == 1.0
    ensures 0.0 <= alpha <= 1.0 && 0.0 <= lambdas[nr] <= 1.0 ==>
      alpha <= SnsRate(false, nr, etas, lambdas, alpha).value <= 1.0
  {
    var l := lambdas[nr];
    if 0.0 <= alpha <= 1.0 && 0.0 <= l <= 1.0 {
      assert (1.0 - alpha) * l <= 1.0 - alpha;
      assert (1.0 - alpha) * l >= 0.0;
    }
  }

  /** A RealParameter's bound inputs in the older node encoding, either of which may be absent. */
  datatype BoundedParam = BoundedParam(value: real, lower: Option<real>, upper: Option<real>)

  /** Missing or negative bounds become 0 (lower) and Double.MAX_VALUE (upper). */
  function DefaultBounds(p: BoundedParam): (r: BoundedParam)
    ensures r.value == p.value && r.lower.Some? && r.upper.Some?
    ensures r.lower.value >= 0.0 && r.upper.value >= 0.0
    ensures p.lower.Some? && p.lower.value >= 0.0 ==> r.lower == p.lower
    ensures p.upper.Some? && p.upper.value >= 0.0 ==> r.upper == p.upper
  {
    BoundedParam(p.value,
      if p.lower.None? || p.lower.value < 0.0 then Some(0.0) else p.lower,
      if p.upper.None? || p.upper.value < 0.0 then Some(MaxValue) else p.upper)
  }

  /** SeedbankClockModelX's initAndValidate: default bounds on both rates, and meanRate 1.0 when absent. */
  function InitClockX(active: BoundedParam, dormant: BoundedParam, meanRate: Option<real>): (r: (BoundedParam, BoundedParam, real))
    ensures r.0 == DefaultBounds(active) && r.1 == DefaultBounds(dormant)
    ensures meanRate.None? ==> r.2 == 1.0
    ensures meanRate.Some? ==> r.2 == meanRate.value
  {
    (DefaultBounds(active), DefaultBounds(dormant), if meanRate.Some? then meanRate.value else 1.0)
  }

  /** SeedbankClockModelX.getRateForBranch: the node's type picks the dormant or active rate, times meanRate. */
  function RateX(nodeType: int, activeRate: real, dormantRate: real, meanRate: real): (r: Result<real>)
    ensures nodeType == 0 ==> r == Ok(dormantRate * meanRate)
    ensures nodeType == 1 ==> r == Ok(activeRate * meanRate)
    ensures r.Fail? <==> nodeType != 0 && nodeType != 1
    ensures r.Fail? ==> r.error == Runtime
  {
    if nodeType == 0 then Ok(dormantRate * meanRate)
    else if nodeType == 1 then Ok(activeRate * meanRate)
    else Fail(Runtime)
  }

  /** A rate parameter inside the bounds it was given. */
  predicate WithinBounds(p: BoundedParam)
  {
    p.lower.Some? && p.upper.Some? && p.lower.value <= p.value <= p.upper.value
  }

  /**
   * After initAndValidate, rates inside their bounds and a non-negative
   * mean rate give every node of type 0 or 1 a non-negative rate, any
   * other type the RuntimeException, and a dormant branch a rate no
   * larger than an active one whenever the dormant rate is no larger.
   */
  lemma InitializedRatesX(active: BoundedParam, dormant: BoundedParam, meanRate: Option<real>, nodeType: int)
    requires WithinBounds(InitClockX(active, dormant, meanRate).0)
    requires WithinBounds(InitClockX(active, dormant, meanRate).1)
    requires meanRate.None? || meanRate.value >= 0.0
    ensures var (a, d, mean) := InitClockX(active, dormant, meanRate);
      var r := RateX(nodeType, a.value, d.value, mean);
      (r.Ok? <==> nodeType == 0 || nodeType == 1) && (r.Ok? ==> r.value >= 0.0)
    ensures var (a, d, mean) := InitClockX(active, dormant, meanRate);
      d.value <= a.value ==> RateX(0, a.value, d.value, mean).value <= RateX(1, a.value, d.value, mean).value
  {
    var (a, d, mean) := InitClockX(active, dormant, meanRate);
    RatesNonNegative(nodeType, a.value, d.value, mean);
  }

  /** Non-negative rates and mean rate give non-negative branch rates, ordered as the rates are. */
  lemma RatesNonNegative(nodeType: int, a: real, d: real, mean: real)
    requires a >= 0.0 && d >= 0.0 && mean >= 0.0
    ensures RateX(nodeType, a, d, mean).Ok? ==> RateX(nodeType, a, d, mean).value >= 0.0
    ensures d <= a ==> RateX(0, a, d, mean).value <= RateX(1, a, d, mean).value
  {
    MulNonNegative(a, mean);
    MulNonNegative(d, mean);
    if d <= a {
      MulMonotone(d, a, mean);
    }
  }

  lemma MulNonNegative(x: real, y: real)
    requires x >= 0.0 && y >= 0.0
    ensures x * y >= 0.0
  {
  }

  lemma MulMonotone(x: real, y: real, m: real)
    requires x <= y && m >= 0.0
    ensures x * m <= y * m
  {
    MulNonNegative(y - x, m);
  }
}
