// What constrainedRetypeBranch promises about the branch it rebuilds: as
// many dormant periods as the sampled types had, alternating binary types
// that end active, dormant time equal to the branch length times lambda
// (so that recalculateLambda gives lambda back), stretches that fill the
// branch exactly, change times in order, and a log probability that the
// branch-type probability of the rebuilt tree agrees with.

module ConstrainedProperties {
  import opened Wrappers
  import opened Doubles
  import opened Sorting
  import opened SeedbankNodes
  import opened SeedbankTrees
  import opened TreeSurgery
  import opened Retype
  import opened ConstrainedRetype

  /* ---------------------------------------------------------------------
   * The stretches Cut lays out, on plain values.
   */

  /** Each pair of places holds one dormant place. */
  lemma {:induction false} PlacesInPairs(startType: int, j: nat)
    requires startType == 0 || startType == 1
    ensures DormantPlaces(startType, 2 * j) == j
  {
    if j > 0 {
      PlacesInPairs(startType, j - 1);
      assert DormantPlace(startType, 2 * j - 2) != DormantPlace(startType, 2 * j - 1);
    }
  }

  /**
   * Before the last of the 2 numDormant + startType places, which is an
   * active one, lie all numDormant dormant places.
   */
  lemma PlacesBeforeLast(startType: int, numDormant: nat)
    requires startType == 0 || startType == 1
    requires numDormant >= 1
    ensures DormantPlaces(startType, 2 * numDormant + startType - 1) == numDormant
  {
    PlacesInPairs(startType, numDormant);
    if startType == 0 {
      assert !DormantPlace(startType, 2 * numDormant - 1);
    }
  }

  /** A branch rebuilt from numDormant dormant stretches has numDormant dormant periods. */
  lemma FlipsRunsBeforeLast(startType: int, numDormant: nat)
    requires startType == 0 || startType == 1
    requires numDormant >= 1
    ensures DormantRuns(startType, Flips(startType, 2 * numDormant + startType - 1)) == numDormant
  {
    FlipsRuns(startType, 2 * numDormant + startType - 1);
    PlacesBeforeLast(startType, numDormant);
  }

  /** An odd number of flips from a dormant start, or an even one from an active start, alternate and end active. */
  lemma FlipsEndActive(startType: int, k: nat)
    requires startType == 0 || startType == 1
    requires k % 2 == 1 - startType
    ensures var types := Flips(startType, k);
      AllBinary(types) && Alternating(startType, types) && FinalType(startType, types) == 1
  {
    FlipsAlternate(startType, k);
    FlipsEnd(startType, k);
  }

  /**
   * The 2 numDormant + startType - 1 flips laid on a rebuilt branch hold
   * numDormant dormant periods, alternate from the start type and end
   * active.
   */
  lemma RebuiltShape(startType: int, numDormant: nat)
    requires startType == 0 || startType == 1
    requires numDormant >= 1
    ensures var types := Flips(startType, 2 * numDormant + startType - 1);
      DormantRuns(startType, types) == numDormant &&
      AllBinary(types) && Alternating(startType, types) && FinalType(startType, types) == 1
  {
    FlipsRunsBeforeLast(startType, numDormant);
    FlipsEndActive(startType, 2 * numDormant + startType - 1);
  }

  /** The stretches add up to the branch length. */
  lemma CutFills(startType: int, len: real, dormantLen: real, dormantDraws: seq<real>, activeDraws: seq<real>)
    requires startType == 0 || startType == 1
    requires |activeDraws| == |dormantDraws| + startType
    ensures Sum(Cut(startType, len, dormantLen, dormantDraws, activeDraws)) == len
  {
    var dormant := Stretches(dormantLen, SortReals(dormantDraws));
    var active := Stretches(len - dormantLen, SortReals(activeDraws));
    InterleavedSum(startType, dormant, active);
    StretchesSum(dormantLen, SortReals(dormantDraws));
    StretchesSum(len - dormantLen, SortReals(activeDraws));
  }

  /** The time recalculateLambda credits as dormant on the laid changes is the dormant length. */
  lemma CutDormantTime(startType: int, start: real, len: real, dormantLen: real,
                       dormantDraws: seq<real>, activeDraws: seq<real>)
    requires startType == 0 || startType == 1
    requires |activeDraws| == |dormantDraws| + startType
    ensures var l := Cut(startType, len, dormantLen, dormantDraws, activeDraws);
      ChangeCredited(1, start, Flips(startType, |l| - 1), Arrivals(start, l, |l| - 1)) == dormantLen
  {
    var dormant := Stretches(dormantLen, SortReals(dormantDraws));
    var active := Stretches(len - dormantLen, SortReals(activeDraws));
    InterleavedDormantTime(startType, start, dormant, active);
    StretchesSum(dormantLen, SortReals(dormantDraws));
  }

  /** The dormant time credited on the interleaved stretches laid as flips is the dormant stretches' sum. */
  lemma InterleavedDormantTime(startType: int, start: real, dormant: seq<real>, active: seq<real>)
    requires startType == 0 || startType == 1
    requires |active| == |dormant| + startType && |dormant| >= 1
    ensures var l := Interleaved(startType, dormant, active);
      ChangeCredited(1, start, Flips(startType, |l| - 1), Arrivals(start, l, |l| - 1)) == Sum(dormant)
  {
    var l := Interleaved(startType, dormant, active);
    DormantBeforeLast(startType, dormant, active);
    FlipsCredited(startType, start, l, |l| - 1);
  }

  /** A sequence in order in the sense of Sorted is in order pair by pair. */
  lemma SortedAscends(s: seq<real>)
    requires Sorted(s)
    ensures Ascending(s)
  {
    forall i | 0 <= i < |s| - 1 ensures s[i] <= s[i + 1] {
      assert i < i + 1;
    }
  }

  /** Draws in [0, 1), sorted, cut a non-negative total into non-negative stretches. */
  lemma SortedStretchesNonNegative(total: real, draws: seq<real>)
    requires total >= 0.0
    requires forall i :: 0 <= i < |draws| ==> 0.0 <= draws[i] < 1.0
    ensures forall i :: 0 <= i < |Stretches(total, SortReals(draws))| ==> Stretches(total, SortReals(draws))[i] >= 0.0
  {
    var sorted := SortReals(draws);
    SortRealsSorts(draws);
    SortedAscends(sorted);
    PermutationKeepsBounds(draws, sorted, 0.0, 1.0);
    StretchesNonNegative(total, sorted);
  }

  /** Interleaving non-negative stretches gives non-negative stretches. */
  lemma InterleavedNonNegative(startType: int, dormant: seq<real>, active: seq<real>)
    requires startType == 0 || startType == 1
    requires |active| == |dormant| + startType
    requires forall i :: 0 <= i < |dormant| ==> dormant[i] >= 0.0
    requires forall i :: 0 <= i < |active| ==> active[i] >= 0.0
    ensures forall j :: 0 <= j < |Interleaved(startType, dormant, active)| ==> Interleaved(startType, dormant, active)[j] >= 0.0
  {
    var l := Interleaved(startType, dormant, active);
    var n := |dormant|;
    var pairs := Paired(startType, dormant, active, n);
    forall j | 0 <= j < |l| ensures l[j] >= 0.0 {
      if j < 2 * n {
        PairedAt(startType, dormant, active, n, j / 2);
        assert l[j] == pairs[j];
        assert j == 2 * (j / 2) || j == 2 * (j / 2) + 1;
      } else {
        assert l[j] == active[n];
      }
    }
  }

  /** Values Randomizer.nextDouble can return. */
  predicate UnitDraws(draws: seq<real>)
  {
    forall i :: 0 <= i < |draws| ==> 0.0 <= draws[i] < 1.0
  }

  predicate NonNegative(lengths: seq<real>)
  {
    forall i :: 0 <= i < |lengths| ==> lengths[i] >= 0.0
  }

  /** With a dormant length between 0 and the branch length and draws in [0, 1), every stretch is non-negative. */
  lemma CutNonNegative(startType: int, len: real, dormantLen: real, dormantDraws: seq<real>, activeDraws: seq<real>)
    requires startType == 0 || startType == 1
    requires |activeDraws| == |dormantDraws| + startType
    requires 0.0 <= dormantLen <= len
    requires UnitDraws(dormantDraws) && UnitDraws(activeDraws)
    ensures NonNegative(Cut(startType, len, dormantLen, dormantDraws, activeDraws))
  {
    var dormant := Stretches(dormantLen, SortReals(dormantDraws));
    var active := Stretches(len - dormantLen, SortReals(activeDraws));
    SortedStretchesNonNegative(dormantLen, dormantDraws);
    SortedStretchesNonNegative(len - dormantLen, activeDraws);
    InterleavedNonNegative(startType, dormant, active);
  }

  /* ---------------------------------------------------------------------
   * What a laid-out branch satisfies, carried up through the checks.
   */

  /**
   * lengths rebuild a branch of length len from start with numDormant
   * dormant stretches adding up to dormantLen: one stretch per place, and
   * the changes laid at all but the last have dormantLen credited as
   * dormant.
   */
  predicate Rebuilt(startType: int, numDormant: nat, start: real, len: real, dormantLen: real, lengths: seq<real>)
  {
    (startType == 0 || startType == 1) && numDormant >= 1 &&
    |lengths| == 2 * numDormant + startType && Sum(lengths) == len &&
    ChangeCredited(1, start, Flips(startType, |lengths| - 1), Arrivals(start, lengths, |lengths| - 1)) == dormantLen
  }

  lemma CutRebuilt(startType: int, start: real, len: real, dormantLen: real,
                   dormantDraws: seq<real>, activeDraws: seq<real>)
    requires startType == 0 || startType == 1
    requires |activeDraws| == |dormantDraws| + startType
    ensures Rebuilt(startType, |dormantDraws| + 1, start, len, dormantLen, Cut(startType, len, dormantLen, dormantDraws, activeDraws))
  {
    CutFills(startType, len, dormantLen, dormantDraws, activeDraws);
    CutDormantTime(startType, start, len, dormantLen, dormantDraws, activeDraws);
  }

  /** Split rebuilds the branch with numDormant dormant stretches holding len times lambda. */
  lemma SplitRebuilt(startType: int, numDormant: nat, start: real, len: real, lam: Option<real>,
                     dormantDraws: seq<real>, activeDraws: seq<real>)
    requires startType == 0 || startType == 1
    requires numDormant >= 1
    ensures var d := Split(startType, numDormant, len, lam, dormantDraws, activeDraws);
      d.Laid? ==> lam.Some? && Rebuilt(startType, numDormant, start, len, Scaled(lam.value, len), d.lengths)
  {
    var d := Split(startType, numDormant, len, lam, dormantDraws, activeDraws);
    if d.Laid? {
      CutRebuilt(startType, start, len, Scaled(lam.value, len),
                 dormantDraws[..numDormant - 1], activeDraws[..numDormant + startType - 1]);
    }
  }

  /** A lambda in [0, 1] cuts a non-negative branch length into a dormant length no greater. */
  lemma ScaledWithin(lam: real, len: real)
    requires 0.0 <= lam <= 1.0 && len >= 0.0
    ensures 0.0 <= Scaled(lam, len) <= len
  {
    ScaledMonotone(0.0, lam, len);
    ScaledMonotone(lam, 1.0, len);
  }

  lemma SplitNonNegative(startType: int, numDormant: nat, len: real, lam: Option<real>,
                         dormantDraws: seq<real>, activeDraws: seq<real>)
    requires startType == 0 || startType == 1
    requires numDormant >= 1 && len >= 0.0
    requires lam.Some? ==> 0.0 <= lam.value <= 1.0
    requires UnitDraws(dormantDraws) && UnitDraws(activeDraws)
    ensures var d := Split(startType, numDormant, len, lam, dormantDraws, activeDraws);
      d.Laid? ==> NonNegative(d.lengths)
  {
    var d := Split(startType, numDormant, len, lam, dormantDraws, activeDraws);
    if d.Laid? {
      ScaledWithin(lam.value, len);
      var dd := dormantDraws[..numDormant - 1];
      var ad := activeDraws[..numDormant + startType - 1];
      assert UnitDraws(dd) && UnitDraws(ad);
      CutNonNegative(startType, len, Scaled(lam.value, len), dd, ad);
    }
  }

  /** The number of dormant periods of the types the forward-backward loop samples, when it samples any. */
  function SampledRuns(ch: Chain, startType: int, endType: int, nVirt: int, typeDraws: seq<real>): Option<nat>
  {
    if nVirt < 0 then None
    else
      match Forward(ch, startType, endType, nVirt, typeDraws)
      case Ok(Some(types)) => Some(DormantRuns(startType, types))
      case _ => None
  }

  /** A laid-out branch keeps the number of dormant periods sampled and holds len times lambda dormant. */
  lemma LaidOutRebuilt(ch: Chain, start: real, startType: int, top: real, endType: int, lam: Option<real>, pba: real,
                       nVirt: int, typeDraws: seq<real>, dormantDraws: seq<real>, activeDraws: seq<real>)
    requires startType == 0 || startType == 1
    ensures var d := LaidOut(ch, start, startType, top, endType, lam, pba, nVirt, typeDraws, dormantDraws, activeDraws);
      var runs := SampledRuns(ch, startType, endType, nVirt, typeDraws);
      d.Laid? ==>
        !Rubbish(pba) && lam.Some? && runs.Some? &&
        Rebuilt(startType, runs.value, start, top - start, Scaled(lam.value, top - start), d.lengths)
  {
    var d := LaidOut(ch, start, startType, top, endType, lam, pba, nVirt, typeDraws, dormantDraws, activeDraws);
    if d.Laid? {
      var types := Forward(ch, startType, endType, nVirt, typeDraws).value.value;
      var runs := SampledRuns(ch, startType, endType, nVirt, typeDraws);
      assert runs == Some(DormantRuns(startType, types));
      assert d == Split(startType, runs.value, top - start, lam, dormantDraws, activeDraws);
      SplitRebuilt(startType, runs.value, start, top - start, lam, dormantDraws, activeDraws);
    }
  }

  lemma LaidOutNonNegative(ch: Chain, start: real, startType: int, top: real, endType: int, lam: Option<real>, pba: real,
                           nVirt: int, typeDraws: seq<real>, dormantDraws: seq<real>, activeDraws: seq<real>)
    requires startType == 0 || startType == 1
    requires start <= top && (lam.Some? ==> 0.0 <= lam.value <= 1.0)
    requires UnitDraws(dormantDraws) && UnitDraws(activeDraws)
    ensures var d := LaidOut(ch, start, startType, top, endType, lam, pba, nVirt, typeDraws, dormantDraws, activeDraws);
      d.Laid? ==> NonNegative(d.lengths)
  {
    var d := LaidOut(ch, start, startType, top, endType, lam, pba, nVirt, typeDraws, dormantDraws, activeDraws);
    if d.Laid? {
      var types := Forward(ch, startType, endType, nVirt, typeDraws).value.value;
      SplitNonNegative(startType, DormantRuns(startType, types), top - start, lam, dormantDraws, activeDraws);
    }
  }

  /** The number of dormant periods the forward-backward loop samples on the branch above node. */
  function RunsAbove(v: seq<NodeRec>, ch: Chain, node: int, nVirt: int, typeDraws: seq<real>): Option<nat>
    requires Shaped(v) && 0 <= node < |v|
  {
    var n := v[node];
    if n.parent == -1 then None else SampledRuns(ch, n.nodeType, v[n.parent].nodeType, nVirt, typeDraws)
  }

  /**
   * lengths rebuild the branch above node with the sampled number of
   * dormant stretches, holding the branch length times lambda.
   */
  predicate RebuiltAbove(v: seq<NodeRec>, node: int, runs: Option<nat>, lam: Option<real>, lengths: seq<real>)
    requires Shaped(v) && 0 <= node < |v|
  {
    var n := v[node];
    n.parent != -1 && runs.Some? && lam.Some? &&
    Rebuilt(n.nodeType, runs.value, n.height, BranchLength(v, node), Scaled(lam.value, BranchLength(v, node)), lengths)
  }

  /** Laying, from the node's values: the rebuilt branch above the node. */
  lemma LayingRebuilt(v: seq<NodeRec>, ch: Chain, lam: Option<real>, node: int, pba: real, nVirt: int,
                      typeDraws: seq<real>, dormantDraws: seq<real>, activeDraws: seq<real>)
    requires Shaped(v) && 0 <= node < |v| && (v[node].nodeType == 0 || v[node].nodeType == 1)
    ensures var d := Laying(v, ch, lam, node, pba, nVirt, typeDraws, dormantDraws, activeDraws);
      d.Laid? ==> !Rubbish(pba) && RebuiltAbove(v, node, RunsAbove(v, ch, node, nVirt, typeDraws), lam, d.lengths)
  {
    var n := v[node];
    if n.parent != -1 {
      assert BranchLength(v, node) == v[n.parent].height - n.height;
      assert RunsAbove(v, ch, node, nVirt, typeDraws) == SampledRuns(ch, n.nodeType, v[n.parent].nodeType, nVirt, typeDraws);
      LaidOutRebuilt(ch, n.height, n.nodeType, v[n.parent].height, v[n.parent].nodeType, lam, pba, nVirt,
                     typeDraws, dormantDraws, activeDraws);
    }
  }

  lemma LayingNonNegative(v: seq<NodeRec>, ch: Chain, lam: Option<real>, node: int, pba: real, nVirt: int,
                          typeDraws: seq<real>, dormantDraws: seq<real>, activeDraws: seq<real>)
    requires Shaped(v) && 0 <= node < |v| && (v[node].nodeType == 0 || v[node].nodeType == 1)
    requires v[node].parent != -1 ==> v[node].height <= v[v[node].parent].height
    requires lam.Some? ==> 0.0 <= lam.value <= 1.0
    requires UnitDraws(dormantDraws) && UnitDraws(activeDraws)
    ensures var d := Laying(v, ch, lam, node, pba, nVirt, typeDraws, dormantDraws, activeDraws);
      d.Laid? ==> NonNegative(d.lengths)
  {
    var n := v[node];
    if n.parent != -1 {
      LaidOutNonNegative(ch, n.height, n.nodeType, v[n.parent].height, v[n.parent].nodeType, lam, pba, nVirt,
                         typeDraws, dormantDraws, activeDraws);
    }
  }

  /* ---------------------------------------------------------------------
   * What the rebuilt path satisfies, from the layout.
   */

  lemma LaidShape(v: seq<NodeRec>, ch: Chain, ln: real -> real, node: int, pba: real, d: Layout,
                  runs: Option<nat>, lam: Option<real>)
    requires Shaped(v) && 0 <= node < |v|
    requires d.Laid? ==> RebuiltAbove(v, node, runs, lam, d.lengths)
    ensures var s := LaidPath(v, ch, ln, node, pba, d);
      var nt := v[node].nodeType;
      d.Laid? ==>
        runs == Some(DormantRuns(nt, s.value.types)) &&
        AllBinary(s.value.types) && Alternating(nt, s.value.types) && FinalType(nt, s.value.types) == 1
  {
    if d.Laid? {
      RebuiltShape(v[node].nodeType, runs.value);
    }
  }

  lemma LaidKeepsLambda(v: seq<NodeRec>, ch: Chain, ln: real -> real, node: int, pba: real, d: Layout,
                        runs: Option<nat>, lam: Option<real>)
    requires Shaped(v) && 0 <= node < |v|
    requires d.Laid? ==> RebuiltAbove(v, node, runs, lam, d.lengths)
    ensures var s := LaidPath(v, ch, ln, node, pba, d);
      d.Laid? && BranchLength(v, node) != 0.0 ==> DormantFraction(Written(v, node, s.value), node) == Finite(lam.value)
  {
    if d.Laid? && BranchLength(v, node) != 0.0 {
      var s := LaidPath(v, ch, ln, node, pba, d);
      var n := v[node];
      var w := Written(v, node, s.value);
      assert w[n.parent].height == v[n.parent].height;
      ScaledBack(lam.value, BranchLength(v, node));
    }
  }

  lemma LaidInOrder(v: seq<NodeRec>, ch: Chain, ln: real -> real, node: int, pba: real, d: Layout,
                    runs: Option<nat>, lam: Option<real>)
    requires Shaped(v) && 0 <= node < |v|
    requires d.Laid? ==> RebuiltAbove(v, node, runs, lam, d.lengths) && NonNegative(d.lengths)
    ensures var s := LaidPath(v, ch, ln, node, pba, d);
      var n := v[node];
      d.Laid? ==> Ascending([n.height] + s.value.times + [v[n.parent].height])
  {
    if d.Laid? {
      var n := v[node];
      var l := d.lengths;
      var k := |l| - 1;
      var top := v[n.parent].height;
      var times := Arrivals(n.height, l, k);
      ArrivalsAscend(n.height, l, k);
      LastReachesTop(n.height, l, top - n.height);
      assert ([n.height] + times)[|times|] == PrevTime(n.height, times);
      AscendingAppend([n.height] + times, top);
    }
  }

  lemma LaidPathProb(v: seq<NodeRec>, ch: Chain, ln: real -> real, node: int, pba: real, d: Layout)
    requires Shaped(v) && 0 <= node < |v|
    requires d.Laid? ==> v[node].parent != -1 && |d.lengths| >= 1 && !Rubbish(pba)
    ensures var s := LaidPath(v, ch, ln, node, pba, d);
      d.Laid? ==> BranchTypeProb(Written(v, node, s.value), ch, ln, node, pba) == Ok(s.value.logProb)
  {
    if d.Laid? {
      var s := LaidPath(v, ch, ln, node, pba, d);
      var n := v[node];
      var w := Written(v, node, s.value);
      assert w[n.parent].height == v[n.parent].height;
    }
  }

  /** The lambda of a rebuilt branch of non-zero length times that length, over it, is the lambda. */
  lemma ScaledBack(lam: real, len: real)
    requires len != 0.0
    ensures Div(Scaled(lam, len), len) == Finite(lam)
  {
  }

  /** The last change plus the last stretch reaches the end of lengths adding up to len. */
  lemma LastReachesTop(start: real, lengths: seq<real>, len: real)
    requires |lengths| >= 1 && Sum(lengths) == len
    ensures PrevTime(start, Arrivals(start, lengths, |lengths| - 1)) + lengths[|lengths| - 1] == start + len
  {
    var k := |lengths| - 1;
    ArrivalsReach(start, lengths, k);
    SumStep(lengths, k);
    assert lengths[..k + 1] == lengths;
  }

  /** A value no smaller than the last keeps a sequence in order. */
  lemma AscendingAppend(s: seq<real>, x: real)
    requires |s| >= 1 && Ascending(s) && s[|s| - 1] <= x
    ensures Ascending(s + [x])
  {
    forall i | 0 <= i < |s + [x]| - 1 ensures (s + [x])[i] <= (s + [x])[i + 1] {
      if i < |s| - 1 {
        assert (s + [x])[i + 1] == s[i + 1];
      }
    }
  }

  /* ---------------------------------------------------------------------
   * The properties of constrainedRetypeBranch's result.
   */

  /**
   * A rebuilt branch has as many dormant periods as the types the
   * forward-backward loop sampled; its change types are binary, alternate
   * from the node's type and end active.
   */
  lemma ConstrainedKeepsDormantPeriods(v: seq<NodeRec>, ch: Chain, ln: real -> real, lam: Option<real>, node: int,
                                       pba: real, nVirt: int, typeDraws: seq<real>, dormantDraws: seq<real>,
                                       activeDraws: seq<real>)
    requires Shaped(v) && 0 <= node < |v| && (v[node].nodeType == 0 || v[node].nodeType == 1)
    ensures var s := Constrained(v, ch, ln, lam, node, pba, nVirt, typeDraws, dormantDraws, activeDraws);
      var nt := v[node].nodeType;
      s.Ok? && s.value.Path? ==>
        RunsAbove(v, ch, node, nVirt, typeDraws) == Some(DormantRuns(nt, s.value.types)) &&
        AllBinary(s.value.types) && Alternating(nt, s.value.types) && FinalType(nt, s.value.types) == 1
  {
    var d := Laying(v, ch, lam, node, pba, nVirt, typeDraws, dormantDraws, activeDraws);
    assert Constrained(v, ch, ln, lam, node, pba, nVirt, typeDraws, dormantDraws, activeDraws) == LaidPath(v, ch, ln, node, pba, d);
    LayingRebuilt(v, ch, lam, node, pba, nVirt, typeDraws, dormantDraws, activeDraws);
    LaidShape(v, ch, ln, node, pba, d, RunsAbove(v, ch, node, nVirt, typeDraws), lam);
  }

  /**
   * recalculateLambda on the rebuilt branch finds the lambda the branch
   * was rebuilt from, when the branch has a length: constrainedRetypeBranch
   * leaves the node's lambda where it was.
   */
  lemma ConstrainedKeepsLambda(v: seq<NodeRec>, ch: Chain, ln: real -> real, lam: Option<real>, node: int,
                               pba: real, nVirt: int, typeDraws: seq<real>, dormantDraws: seq<real>,
                               activeDraws: seq<real>)
    requires Shaped(v) && 0 <= node < |v| && (v[node].nodeType == 0 || v[node].nodeType == 1)
    ensures var s := Constrained(v, ch, ln, lam, node, pba, nVirt, typeDraws, dormantDraws, activeDraws);
      s.Ok? && s.value.Path? && BranchLength(v, node) != 0.0 ==>
        lam.Some? && DormantFraction(Written(v, node, s.value), node) == Finite(lam.value)
  {
    var d := Laying(v, ch, lam, node, pba, nVirt, typeDraws, dormantDraws, activeDraws);
    assert Constrained(v, ch, ln, lam, node, pba, nVirt, typeDraws, dormantDraws, activeDraws) == LaidPath(v, ch, ln, node, pba, d);
    LayingRebuilt(v, ch, lam, node, pba, nVirt, typeDraws, dormantDraws, activeDraws);
    LaidKeepsLambda(v, ch, ln, node, pba, d, RunsAbove(v, ch, node, nVirt, typeDraws), lam);
  }

  /**
   * With a lambda in [0, 1], draws in [0, 1) and a parent no lower than
   * the node, the rebuilt changes lie in order between the node and its
   * parent.
   */
  lemma ConstrainedInOrder(v: seq<NodeRec>, ch: Chain, ln: real -> real, lam: Option<real>, node: int,
                           pba: real, nVirt: int, typeDraws: seq<real>, dormantDraws: seq<real>,
                           activeDraws: seq<real>)
    requires Shaped(v) && 0 <= node < |v| && (v[node].nodeType == 0 || v[node].nodeType == 1)
    requires v[node].parent != -1 ==> v[node].height <= v[v[node].parent].height
    requires lam.Some? ==> 0.0 <= lam.value <= 1.0
    requires UnitDraws(dormantDraws) && UnitDraws(activeDraws)
    ensures var s := Constrained(v, ch, ln, lam, node, pba, nVirt, typeDraws, dormantDraws, activeDraws);
      var n := v[node];
      s.Ok? && s.value.Path? ==>
        n.parent != -1 && Ascending([n.height] + s.value.times + [v[n.parent].height])
  {
    var d := Laying(v, ch, lam, node, pba, nVirt, typeDraws, dormantDraws, activeDraws);
    assert Constrained(v, ch, ln, lam, node, pba, nVirt, typeDraws, dormantDraws, activeDraws) == LaidPath(v, ch, ln, node, pba, d);
    LayingRebuilt(v, ch, lam, node, pba, nVirt, typeDraws, dormantDraws, activeDraws);
    LayingNonNegative(v, ch, lam, node, pba, nVirt, typeDraws, dormantDraws, activeDraws);
    LaidInOrder(v, ch, ln, node, pba, d, RunsAbove(v, ch, node, nVirt, typeDraws), lam);
  }

  /**
   * The log probability constrainedRetypeBranch returns is the one the
   * branch-type probability assigns to the path it wrote, under the same
   * Pba.
   */
  lemma ConstrainedPathProb(v: seq<NodeRec>, ch: Chain, ln: real -> real, lam: Option<real>, node: int,
                            pba: real, nVirt: int, typeDraws: seq<real>, dormantDraws: seq<real>,
                            activeDraws: seq<real>)
    requires Shaped(v) && 0 <= node < |v| && (v[node].nodeType == 0 || v[node].nodeType == 1)
    ensures var s := Constrained(v, ch, ln, lam, node, pba, nVirt, typeDraws, dormantDraws, activeDraws);
      s.Ok? && s.value.Path? ==>
        BranchTypeProb(Written(v, node, s.value), ch, ln, node, pba) == Ok(s.value.logProb)
  {
    var d := Laying(v, ch, lam, node, pba, nVirt, typeDraws, dormantDraws, activeDraws);
    assert Constrained(v, ch, ln, lam, node, pba, nVirt, typeDraws, dormantDraws, activeDraws) == LaidPath(v, ch, ln, node, pba, d);
    LayingRebuilt(v, ch, lam, node, pba, nVirt, typeDraws, dormantDraws, activeDraws);
    LaidPathProb(v, ch, ln, node, pba, d);
  }
}
