// initStateNodes of SeedbankTreeInitializer, and the two places where
// SeedbankTreeInitialiser departs from it. The Initialiser runs the same
// simulation loop (Simulation.Simulate), then clears the type changes of
// the root's left child before returning the root; its initStateNodes
// also derives, for every branch that carries changes, the dormancy
// indicator (1) and the dormant fraction of the branch (lambda).

module Initialisers {
  import opened Wrappers
  import opened Doubles
  import opened SeedbankNodes
  import opened SeedbankTrees
  import opened TransitionModels
  import opened TreeSurgery
  import opened Simulation

  /** What the m_initial input holds: nothing, a plain tree, or a seedbank tree. */
  datatype Initial = NoInitial | PlainTree | SeedbankInitial

  // ---------------------------------------------------------------------
  // initStateNodes of the Initializer

  /**
   * initStateNodes: a target that is not a seedbank tree (or is missing)
   * raises IllegalArgumentException; otherwise the target takes over the
   * simulated tree.
   */
  function InitStateNodes(initial: Initial, tr: SimTree): (r: Result<SimTree>)
    ensures r.Fail? <==> !initial.SeedbankInitial?
    ensures r.Fail? ==> r.error == IllegalArgument
  {
    if !initial.SeedbankInitial? then Fail(IllegalArgument) else Ok(tr)
  }

  /** A seedbank target of the Initializer ends up holding a good simulated tree. */
  lemma InitializedIsGood(initial: Initial, m: TransitionModel, hs: seq<real>, ts: seq<int>, draws: seq<Draw>)
    requires |hs| == |ts| && WaitsNonNegative(draws)
    requires initial.SeedbankInitial? && Simulate(m, hs, ts, draws).Ok?
    ensures InitStateNodes(initial, Simulate(m, hs, ts, draws).value).Ok?
    ensures InitStateNodes(initial, Simulate(m, hs, ts, draws).value).value in GoodTrees(hs, ts)
  {
    SimulateIsGood(m, hs, ts, draws);
  }

  // ---------------------------------------------------------------------
  // The end of the Initialiser's simulateTree: clearChanges on the root's left child

  /** The arena with node l's changes cleared. */
  function Clear(v: seq<NodeRec>, l: int): seq<NodeRec>
    requires 0 <= l < |v|
  {
    v[l := v[l].(changeCount := 0, changeTypes := [], changeTimes := [])]
  }

  /** getLeft of the root, then clearChanges on it; a root without children gives NullPointerException. */
  function ClearedLeft(tr: SimTree): (r: Result<SimTree>)
    requires Shaped(tr.nodes) && 0 <= tr.root < |tr.nodes|
  {
    var kids := tr.nodes[tr.root].children;
    if |kids| == 0 then Fail(NullPointer)
    else
      var l := kids[0];
      Ok(SimTree(Clear(tr.nodes, l), tr.root))
  }

  /** simulateTree of the Initialiser: the simulation, then the clearing. */
  function SimulateClearing(m: TransitionModel, hs: seq<real>, ts: seq<int>, draws: seq<Draw>): Result<SimTree>
    requires |hs| == |ts| && WaitsNonNegative(draws)
  {
    var sim := Simulate(m, hs, ts, draws);
    if sim.Fail? then Fail(sim.error)
    else
      SimulateIsGood(m, hs, ts, draws);
      ClearedLeft(sim.value)
  }

  method SimulateTreeClearing(m: TransitionModel, hs: seq<real>, ts: seq<int>, draws: seq<Draw>) returns (r: Result<SimTree>)
    requires |hs| == |ts| && WaitsNonNegative(draws)
    ensures r == SimulateClearing(m, hs, ts, draws)
  {
    var sim := SimulateTree(m, hs, ts, draws);
    if sim.Fail? {
      return Fail(sim.error);
    }
    SimulateIsGood(m, hs, ts, draws);
    var tr := sim.value;
    var kids := tr.nodes[tr.root].children;
    if |kids| == 0 {
      return Fail(NullPointer);
    }
    var l := kids[0];
    r := Ok(SimTree(Clear(tr.nodes, l), tr.root));
  }

  /** On a simulated tree the clearing fails, with NullPointerException, exactly when there is a single sample. */
  lemma ClearingFailsOnOneSample(tr: SimTree, hs: seq<real>, ts: seq<int>)
    requires GoodTree(tr, hs, ts)
    ensures ClearedLeft(tr).Fail? <==> |hs| == 1
    ensures ClearedLeft(tr).Fail? ==> ClearedLeft(tr).error == NullPointer
  {
    if |hs| >= 2 {
      assert |hs| <= tr.root;
    }
  }

  /**
   * On a simulated tree of two or more samples the clearing keeps every
   * record but the left child's change lists, and every branch stays
   * time-ordered below its parent; the tree stays valid exactly when the left child has the
   * root's type, which is 1 (active): a dormant left child, such as a
   * dormant sample that became active before the last coalescence, leaves
   * a tree whose types do not match.
   */
  lemma ClearedValidIff(tr: SimTree, hs: seq<real>, ts: seq<int>)
    requires GoodTree(tr, hs, ts) && |hs| >= 2
    ensures ClearedLeft(tr).Ok?
    ensures var c := ClearedLeft(tr).value; var l := tr.nodes[tr.root].children[0];
      c.root == tr.root && |c.nodes| == |tr.nodes| &&
      c.nodes[l] == tr.nodes[l].(changeCount := 0, changeTypes := [], changeTimes := []) &&
      (forall i :: 0 <= i < |c.nodes| && i != l ==> c.nodes[i] == tr.nodes[i]) &&
      Shaped(c.nodes) && ParentsConsistent(c.nodes) && AllBranchesOrdered(c.nodes)
    ensures var c := ClearedLeft(tr).value; var l := tr.nodes[tr.root].children[0];
      tr.nodes[tr.root].nodeType == 1 &&
      (IsValidTree(c.nodes, c.root) <==> tr.nodes[l].nodeType == 1)
  {
    var v := tr.nodes;
    var rt := tr.root;
    assert |hs| <= rt;
    var l := v[rt].children[0];
    assert v[l].parent == rt;
    ClearedKeepsOrder(v, l);
    var w := ClearedLeft(tr).value.nodes;
    if v[l].nodeType == 1 {
      ClearedKeepsTypes(v, l);
      LocalConditionsGiveValidity(w, rt, |w|);
    } else {
      assert w[rt] == v[rt];
      assert FinalType(w[l].nodeType, w[l].changeTypes) != w[rt].nodeType;
      assert !TypesValid(w, rt, |w|);
    }
  }

  /** Clearing a branch's changes keeps the arena shaped, linked and time-ordered. */
  lemma ClearedKeepsOrder(v: seq<NodeRec>, l: int)
    requires Shaped(v) && ParentsConsistent(v) && AllBranchesOrdered(v) && 0 <= l < |v|
    ensures Shaped(Clear(v, l)) && ParentsConsistent(Clear(v, l)) && AllBranchesOrdered(Clear(v, l))
  {
    var w := Clear(v, l);
    assert Shaped(w) by {
      forall i | 0 <= i < |w| ensures w[i].Consistent() && -1 <= w[i].parent < |w|
        ensures forall k :: 0 <= k < |w[i].children| ==> 0 <= w[i].children[k] < |w|
      {
        assert w[i].children == v[i].children && w[i].parent == v[i].parent;
      }
    }
    assert ParentsConsistent(w) by {
      forall i, k | 0 <= i < |w| && 0 <= k < |w[i].children| ensures w[w[i].children[k]].parent == i {
        assert w[i].children == v[i].children;
      }
    }
    forall i | 0 <= i < |w| && w[i].parent != -1 ensures BranchTimesOrdered(w[w[i].parent].height, w[i]) {
      var p := v[i].parent;
      assert w[p].height == v[p].height;
      if i == l {
        var seg := [v[l].height] + v[l].changeTimes + [v[p].height];
        assert BranchTimesOrdered(v[p].height, v[l]);
        AscendingIsSorted(seg, 0, |seg| - 1);
        assert [w[l].height] + w[l].changeTimes + [w[p].height] == [v[l].height, v[p].height];
      }
    }
  }

  /** Clearing the changes of a branch whose node has its parent's type keeps every type matching. */
  lemma ClearedKeepsTypes(v: seq<NodeRec>, l: int)
    requires Shaped(v) && AllTypesMatch(v) && 0 <= l < |v| && v[l].parent != -1
    requires v[l].nodeType == v[v[l].parent].nodeType
    ensures Shaped(Clear(v, l)) && AllTypesMatch(Clear(v, l))
  {
    var w := Clear(v, l);
    assert Shaped(w) by {
      forall i | 0 <= i < |w| ensures w[i].Consistent() && -1 <= w[i].parent < |w|
        ensures forall k :: 0 <= k < |w[i].children| ==> 0 <= w[i].children[k] < |w|
      {
        assert w[i].children == v[i].children && w[i].parent == v[i].parent;
      }
    }
    forall i | 0 <= i < |w| && w[i].parent != -1
      ensures FinalType(w[i].nodeType, w[i].changeTypes) == w[w[i].parent].nodeType
    {
      assert w[v[i].parent].nodeType == v[v[i].parent].nodeType;
    }
  }

  // ---------------------------------------------------------------------
  // initStateNodes of the Initialiser: lambdas and indicators

  /**
   * The dormant time the Initialiser adds up along a branch, reading the
   * changes upwards: the segment that ends at a change counts when the
   * type in force below that change is 0. The segment from the last
   * change up to the parent is never counted.
   */
  function DormantBeforeChanges(nodeType: int, height: real, types: seq<int>, times: seq<real>): real
    requires |types| == |times|
    decreases |types|
  {
    if |types| == 0 then 0.0
    else
      var n := |types| - 1;
      DormantBeforeChanges(nodeType, height, types[..n], times[..n])
        + (if FinalType(nodeType, types[..n]) == 0 then times[n] - PrevTime(height, times[..n]) else 0.0)
  }

  /** The inner loop over the changes of one node. */
  method DormantSum(n: NodeRec) returns (sum: real)
    requires n.Consistent()
    ensures sum == DormantBeforeChanges(n.nodeType, n.height, n.changeTypes, n.changeTimes)
  {
    sum := 0.0;
    var lastType := n.nodeType;
    var lastHeight := n.height;
    var j := 0;
    while j < n.changeCount
      invariant 0 <= j <= n.changeCount
      invariant sum == DormantBeforeChanges(n.nodeType, n.height, n.changeTypes[..j], n.changeTimes[..j])
      invariant lastType == FinalType(n.nodeType, n.changeTypes[..j])
      invariant lastHeight == PrevTime(n.height, n.changeTimes[..j])
    {
      assert n.changeTypes[..j + 1][..j] == n.changeTypes[..j];
      assert n.changeTimes[..j + 1][..j] == n.changeTimes[..j];
      if lastType == 0 {
        sum := sum + (n.changeTimes[j] - lastHeight);
      }
      lastType := n.changeTypes[j];
      lastHeight := n.changeTimes[j];
      j := j + 1;
    }
    assert n.changeTypes[..j] == n.changeTypes && n.changeTimes[..j] == n.changeTimes;
  }

  /** Every change switches the type in force: the branch alternates between the demes. */
  predicate Alternates(nodeType: int, types: seq<int>)
  {
    forall j :: 0 <= j < |types| ==> types[j] != FinalType(nodeType, types[..j])
  }

  /**
   * On an alternating branch with types 0 and 1 the Initialiser's sum is
   * the dormant time recalculateLambda finds: a segment lies below a change
   * to 1 exactly when the type in force there is 0.
   */
  lemma {:induction false} AlternatingSumIsDormant(nodeType: int, height: real, types: seq<int>, times: seq<real>)
    requires |types| == |times| && AllBinary(types) && (nodeType == 0 || nodeType == 1)
    requires Alternates(nodeType, types)
    ensures DormantBeforeChanges(nodeType, height, types, times) == ChangeCredited(1, height, types, times)
    decreases |types|
  {
    if |types| > 0 {
      var n := |types| - 1;
      var pre := types[..n];
      assert AllBinary(pre);
      assert Alternates(nodeType, pre) by {
        forall j | 0 <= j < |pre| ensures pre[j] != FinalType(nodeType, pre[..j]) {
          assert pre[..j] == types[..j];
        }
      }
      AlternatingSumIsDormant(nodeType, height, pre, times[..n]);
      assert types[n] != FinalType(nodeType, pre);
      assert FinalType(nodeType, pre) == 0 || FinalType(nodeType, pre) == 1;
    }
  }

  /** The lambda written for branch i: the dormant time over getLength, as a double. */
  function Fraction(v: seq<NodeRec>, i: int): Double
    requires Shaped(v) && 0 <= i < |v|
  {
    Div(DormantBeforeChanges(v[i].nodeType, v[i].height, v[i].changeTypes, v[i].changeTimes), BranchLength(v, i))
  }

  /** On an alternating branch the Initialiser writes the lambda recalculateLambda would. */
  lemma FractionIsRecalculated(v: seq<NodeRec>, i: int)
    requires Shaped(v) && 0 <= i < |v|
    requires AllBinary(v[i].changeTypes) && (v[i].nodeType == 0 || v[i].nodeType == 1)
    requires Alternates(v[i].nodeType, v[i].changeTypes)
    ensures Fraction(v, i) == DormantFraction(v, i)
  {
    AlternatingSumIsDormant(v[i].nodeType, v[i].height, v[i].changeTypes, v[i].changeTimes);
  }

  /**
   * The loop over nodes i .. |v|-2 on the parameter values: a node with
   * changes gets indicator 1, then lambda Fraction. setValue past the end
   * of a parameter raises IndexOutOfBounds, keeping the writes made before.
   */
  function Written(v: seq<NodeRec>, lam: seq<Double>, ind: seq<int>, i: nat): (Outcome, seq<Double>, seq<int>)
    requires Shaped(v)
    decreases |v| - i
  {
    if i + 1 >= |v| then (Done, lam, ind)
    else if v[i].changeCount == 0 then Written(v, lam, ind, i + 1)
    else if i >= |ind| then (Failed(IndexOutOfBounds), lam, ind)
    else if i >= |lam| then (Failed(IndexOutOfBounds), lam, ind[i := 1])
    else Written(v, lam[i := Fraction(v, i)], ind[i := 1], i + 1)
  }

  /** A node the loop writes: one below the last node, with changes. */
  predicate Touched(v: seq<NodeRec>, k: int)
    requires Shaped(v)
  {
    0 <= k < |v| - 1 && v[k].changeCount != 0
  }

  /** The loop completes exactly when both parameters reach every node it writes. */
  lemma {:induction false} WrittenDone(v: seq<NodeRec>, lam: seq<Double>, ind: seq<int>, i: nat)
    requires Shaped(v)
    ensures Written(v, lam, ind, i).0 == Done <==>
      forall k :: i <= k && Touched(v, k) ==> k < |ind| && k < |lam|
    ensures Written(v, lam, ind, i).0 != Done ==> Written(v, lam, ind, i).0 == Failed(IndexOutOfBounds)
    decreases |v| - i
  {
    if i + 1 < |v| {
      if v[i].changeCount == 0 {
        WrittenDone(v, lam, ind, i + 1);
        assert !Touched(v, i);
      } else if i < |ind| && i < |lam| {
        var lam', ind' := lam[i := Fraction(v, i)], ind[i := 1];
        WrittenDone(v, lam', ind', i + 1);
        assert |lam'| == |lam| && |ind'| == |ind|;
      } else {
        assert Touched(v, i);
      }
    }
  }

  /**
   * After a completed loop from i: both parameters keep their length,
   * every node written gets indicator 1 and its Fraction, and every other
   * entry (those of nodes without changes, of the last node, and beyond
   * the nodes) is left as it was.
   */
  lemma {:induction false} WrittenValues(v: seq<NodeRec>, lam: seq<Double>, ind: seq<int>, i: nat)
    requires Shaped(v) && Written(v, lam, ind, i).0 == Done
    ensures |Written(v, lam, ind, i).1| == |lam| && |Written(v, lam, ind, i).2| == |ind|
    ensures forall k :: 0 <= k < |lam| ==>
      Written(v, lam, ind, i).1[k] == if i <= k && Touched(v, k) then Fraction(v, k) else lam[k]
    ensures forall k :: 0 <= k < |ind| ==>
      Written(v, lam, ind, i).2[k] == if i <= k && Touched(v, k) then 1 else ind[k]
    decreases |v| - i
  {
    if i + 1 < |v| {
      if v[i].changeCount == 0 {
        WrittenValues(v, lam, ind, i + 1);
      } else {
        WrittenValues(v, lam[i := Fraction(v, i)], ind[i := 1], i + 1);
      }
    }
  }

  /** The outer loop of initStateNodes over the nodes but the last. */
  method WriteParameters(v: seq<NodeRec>, lambdas: array<Double>, indicators: array<int>) returns (o: Outcome)
    requires Shaped(v)
    modifies lambdas, indicators
    ensures (o, lambdas[..], indicators[..]) == Written(v, old(lambdas[..]), old(indicators[..]), 0)
  {
    var i := 0;
    while i + 1 < |v|
      invariant 0 <= i <= |v|
      invariant Written(v, lambdas[..], indicators[..], i) == Written(v, old(lambdas[..]), old(indicators[..]), 0)
      decreases |v| - i
    {
      if v[i].changeCount != 0 {
        var sum := DormantSum(v[i]);
        if i >= indicators.Length {
          return Failed(IndexOutOfBounds);
        }
        indicators[i] := 1;
        if i >= lambdas.Length {
          return Failed(IndexOutOfBounds);
        }
        lambdas[i] := Div(sum, BranchLength(v, i));
      }
      i := i + 1;
    }
    o := Done;
  }

  /**
   * initStateNodes of the Initialiser: the target check and hand-over of
   * the Initializer, then, when both the lambdas and the indicators inputs
   * are given, the loop over the nodes of the simulated tree.
   */
  method InitialiserInitStateNodes(initial: Initial, tr: SimTree, lambdas: array?<Double>, indicators: array?<int>)
    returns (r: Result<SimTree>)
    requires Shaped(tr.nodes)
    modifies lambdas, indicators
    ensures !initial.SeedbankInitial? ==> r == Fail(IllegalArgument)
    ensures !initial.SeedbankInitial? || lambdas == null || indicators == null ==>
      (lambdas != null ==> unchanged(lambdas)) && (indicators != null ==> unchanged(indicators))
    ensures initial.SeedbankInitial? && (lambdas == null || indicators == null) ==> r == Ok(tr)
    ensures initial.SeedbankInitial? && lambdas != null && indicators != null ==>
      var w := Written(tr.nodes, old(lambdas[..]), old(indicators[..]), 0);
      lambdas[..] == w.1 && indicators[..] == w.2 &&
      r == (if w.0 == Done then Ok(tr) else Fail(w.0.error))
  {
    r := InitStateNodes(initial, tr);
    if r.Fail? || lambdas == null || indicators == null {
      return;
    }
    var o := WriteParameters(tr.nodes, lambdas, indicators);
    if o.Failed? {
      r := Fail(o.error);
    }
  }

  /**
   * On a simulated tree of n >= 2 samples, with parameters of at least
   * 2n - 2 entries, initStateNodes completes; it writes indicator 1 and
   * the dormant fraction exactly for the non-root branches with changes,
   * which never includes the root's left child whose changes were cleared.
   */
  lemma InitialisedParameters(tr: SimTree, hs: seq<real>, ts: seq<int>, lam: seq<Double>, ind: seq<int>)
    requires GoodTree(tr, hs, ts) && |hs| >= 2
    requires |lam| >= |tr.nodes| - 1 && |ind| >= |tr.nodes| - 1
    ensures var c := ClearedLeft(tr).value.nodes; var w := Written(c, lam, ind, 0);
      w.0 == Done && |w.1| == |lam| && |w.2| == |ind| &&
      (forall k :: 0 <= k < |lam| ==> w.1[k] == if Touched(c, k) then Fraction(c, k) else lam[k]) &&
      (forall k :: 0 <= k < |ind| ==> w.2[k] == if Touched(c, k) then 1 else ind[k]) &&
      !Touched(c, tr.nodes[tr.root].children[0])
  {
    ClearedValidIff(tr, hs, ts);
    var c := ClearedLeft(tr).value.nodes;
    WrittenDone(c, lam, ind, 0);
    WrittenValues(c, lam, ind, 0);
  }
}
