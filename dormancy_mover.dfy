// DormancyMover: pick one branch whose indicator is 1 and lay a single
// dormant stretch on it whose share of the branch is the branch's lambda.
// The branch's changes are cleared; the stretch starts at a uniformly drawn
// point that leaves room for it below the parent, and the branch returns to
// the active type at its end.
//
// The draws stand for Randomizer.nextInt (pick, taken modulo the bound) and
// Randomizer.nextDouble (u). The lambdas are the parameter's values, read
// as reals.

module DormancyMovers {
  import opened Wrappers
  import opened Doubles
  import opened SeedbankNodes
  import opened SeedbankTrees
  import opened TreeSurgery
  import PairMoves
  import UniformNodes

  /** initAndValidate: the indicators must have the lambdas' dimension. */
  function InitCheck(lambdaDim: int, indicatorDim: int): (r: Outcome)
    ensures r == Done <==> lambdaDim == indicatorDim
    ensures r != Done ==> r == Failed(IllegalArgument)
  {
    if indicatorDim != lambdaDim then Failed(IllegalArgument) else Done
  }

  /**
   * The check initAndValidate makes is what lets proposal() read the
   * lambda at the chosen position: once it passes, every position a draw
   * can choose indexes the lambdas.
   */
  lemma CheckedChoiceHasLambda(lambdaDim: int, indicator: seq<int>, pick: nat)
    requires InitCheck(lambdaDim, |indicator|) == Done
    ensures Chosen(indicator, pick).Some? ==> Chosen(indicator, pick).value < lambdaDim
  {
  }

  /** The positions whose indicator is 1, in increasing order (the array loc). */
  function ActiveSlots(indicator: seq<int>): (r: seq<int>)
    ensures forall j :: 0 <= j < |r| ==> 0 <= r[j] < |indicator| && indicator[r[j]] == 1
    decreases |indicator|
  {
    if |indicator| == 0 then []
    else
      var last := |indicator| - 1;
      ActiveSlots(indicator[..last]) + (if indicator[last] == 1 then [last] else [])
  }

  /** The slots are exactly the positions with indicator 1, each once, in increasing order. */
  lemma {:induction false} ActiveSlotsExact(indicator: seq<int>)
    ensures forall i :: i in ActiveSlots(indicator) <==> 0 <= i < |indicator| && indicator[i] == 1
    ensures forall a, b :: 0 <= a < b < |ActiveSlots(indicator)| ==> ActiveSlots(indicator)[a] < ActiveSlots(indicator)[b]
    decreases |indicator|
  {
    if |indicator| > 0 {
      var last := |indicator| - 1;
      var p := indicator[..last];
      ActiveSlotsExact(p);
      forall i | 0 <= i < last
        ensures p[i] == indicator[i]
      {
      }
      var q := ActiveSlots(p);
      var r := ActiveSlots(indicator);
      assert r == q + (if indicator[last] == 1 then [last] else []);
      assert forall j :: 0 <= j < |q| ==> q[j] < last;
      forall a, b | 0 <= a < b < |r|
        ensures r[a] < r[b]
      {
        if b >= |q| {
          assert r[b] == last;
          assert r[a] == q[a];
          assert q[a] < last;
        } else {
          assert r[a] == q[a] && r[b] == q[b];
          assert q[a] < q[b];
        }
      }
    }
  }

  /** The slot the draw picks: loc[pick mod locIndex], or None when no indicator is 1. */
  function Chosen(indicator: seq<int>, pick: nat): (r: Option<int>)
    ensures r.Some? ==> 0 <= r.value < |indicator| && indicator[r.value] == 1
  {
    var slots := ActiveSlots(indicator);
    if |slots| == 0 then None else Some(slots[pick % |slots|])
  }

  /** Only indicated slots are picked, and every indicated slot is picked by some draw below locIndex. */
  lemma ChosenCoversIndicated(indicator: seq<int>, i: int)
    requires 0 <= i < |indicator| && indicator[i] == 1
    ensures exists pick: nat :: pick < |ActiveSlots(indicator)| && Chosen(indicator, pick) == Some(i)
  {
    ActiveSlotsExact(indicator);
    var slots := ActiveSlots(indicator);
    assert i in slots;
    var j :| 0 <= j < |slots| && slots[j] == i;
    ModBelow(j, |slots|);
    assert Chosen(indicator, j) == Some(i);
  }

  /** Where the stretch starts above the node: u * (len * (1 - l)), the draw spread over the room left for it. */
  function Offset(u: real, len: real, l: real): real
  {
    u * (len * (1.0 - l))
  }

  /** The stretch's length: the share l of the branch length. */
  function Share(len: real, l: real): real
  {
    len * l
  }

  lemma ModBelow(j: int, n: int)
    requires 0 <= j < n
    ensures j % n == j
  {
  }

  /** Node k with its changes replaced by one dormant stretch from a to b. */
  function Restretched(v: seq<NodeRec>, k: int, a: real, b: real): (w: seq<NodeRec>)
    requires Shaped(v) && 0 <= k < |v|
    ensures Shaped(w) && |w| == |v|
  {
    var r := v[k].(changeTypes := [0, 1], changeTimes := [a, b], changeCount := 2);
    ShapedUpdate(v, k, r);
    v[k := r]
  }

  /**
   * DormancyMover.proposal: no indicated slot, or a lambda of 0, rejects
   * with nothing changed; a slot past the last node raises
   * IndexOutOfBoundsException in getNode; otherwise the branch gets the
   * stretch [h + x, h + x + len * l] for x = u * len * (1 - l), where len
   * is the branch length (0 for the root), and the ratio is 0.
   */
  function Moved(v: seq<NodeRec>, lambdas: seq<real>, indicator: seq<int>, pick: nat, u: real): (r: PairMoves.Edited)
    requires Shaped(v) && |lambdas| == |indicator|
    ensures r.result.Ok? ==> r.result.value == NegInf || r.result.value == Finite(0.0)
    ensures r.result != Ok(Finite(0.0)) ==> r.view == v
  {
    var chosen := Chosen(indicator, pick);
    if chosen.None? then PairMoves.Edited(Ok(NegInf), v)
    else
      var index := chosen.value;
      var l := lambdas[index];
      if l == 0.0 then PairMoves.Edited(Ok(NegInf), v)
      else if index >= |v| then PairMoves.Edited(Fail(IndexOutOfBounds), v)
      else
        PairMoves.Edited(Ok(Finite(0.0)), Laid(v, index, l, u))
  }

  /* ---------------------------------------------------------------------
   * Properties.
   */

  /**
   * The new stretch takes the share l of the branch: a branch of positive
   * length whose lambda is l gets dormant time len * l, so the lambda that
   * recalculateLambda would compute for it is l again.
   */
  lemma StretchHasLambda(v: seq<NodeRec>, k: int, l: real, u: real)
    requires Shaped(v) && 0 <= k < |v| && BranchLength(v, k) > 0.0
    ensures var w := Laid(v, k, l, u);
      BranchLength(w, k) == BranchLength(v, k) && BranchDormant(w, k) == Share(BranchLength(v, k), l) &&
      DormantFraction(w, k) == Finite(l)
  {
    var len := BranchLength(v, k);
    var x := Offset(u, len, l);
    var h := v[k].height;
    var w := Laid(v, k, l, u);
    var b := h + x + Share(len, l);
    assert w[k].changeTypes == [0, 1] && w[k].changeTimes == [h + x, b] && w[k].height == h;
    assert w[k].parent == v[k].parent && w[v[k].parent].height == v[v[k].parent].height;
    assert [0, 1][..1] == [0] && [h + x, b][..1] == [h + x];
    assert [0][..0] == [] && [h + x][..0] == [];
    assert BranchDormant(w, k) == b - (h + x);
    assert (len * l) / len == l;
  }

  /** The stretch laid on one branch. */
  function Laid(v: seq<NodeRec>, k: int, l: real, u: real): (w: seq<NodeRec>)
    requires Shaped(v) && 0 <= k < |v|
    ensures Shaped(w) && |w| == |v|
  {
    var len := BranchLength(v, k);
    var x := Offset(u, len, l);
    Restretched(v, k, v[k].height + x, v[k].height + x + Share(len, l))
  }

  /**
   * On an ordered, type-consistent tree with active internal nodes, moving
   * an active node's branch with a lambda in [0, 1] and u in [0, 1] keeps
   * every branch ordered and every branch ending in its parent's type.
   */
  lemma MoveKeepsValidity(v: seq<NodeRec>, lambdas: seq<real>, indicator: seq<int>, pick: nat, u: real)
    requires Shaped(v) && UniformNodes.Linked(v) && AllBranchesOrdered(v) && AllTypesMatch(v)
    requires |lambdas| == |indicator| && forall i :: 0 <= i < |lambdas| ==> 0.0 <= lambdas[i] <= 1.0
    requires forall i :: 0 <= i < |v| ==> v[i].nodeType == 1 || IsLeaf(v[i])
    requires forall i :: 0 <= i < |v| && i < |indicator| && indicator[i] == 1 ==> v[i].nodeType == 1
    requires 0.0 <= u <= 1.0
    ensures var w := Moved(v, lambdas, indicator, pick, u).view;
      UniformNodes.Linked(w) && AllBranchesOrdered(w) && AllTypesMatch(w)
  {
    var c := Chosen(indicator, pick);
    if c.Some? && lambdas[c.value] != 0.0 && c.value < |v| {
      LaidKeepsValidity(v, c.value, lambdas[c.value], u);
    }
  }

  /** The stretch laid on an active node's branch keeps the tree valid. */
  lemma LaidKeepsValidity(v: seq<NodeRec>, k: int, l: real, u: real)
    requires Shaped(v) && UniformNodes.Linked(v) && AllBranchesOrdered(v) && AllTypesMatch(v)
    requires forall i :: 0 <= i < |v| ==> v[i].nodeType == 1 || IsLeaf(v[i])
    requires 0 <= k < |v| && v[k].nodeType == 1 && 0.0 <= l <= 1.0 && 0.0 <= u <= 1.0
    ensures var w := Laid(v, k, l, u);
      UniformNodes.Linked(w) && AllBranchesOrdered(w) && AllTypesMatch(w)
  {
    var w := Laid(v, k, l, u);
    LaidKeepsLinks(v, k, l, u);
    if v[k].parent != -1 {
      var p := v[k].parent;
      assert k in v[p].children;
      LaidBranch(v[k], v[p].height, l, u);
      assert w[k] == LaidNode(v[k], v[p].height, l, u);
    }
    forall i | 0 <= i < |w| && w[i].parent != -1
      ensures BranchTimesOrdered(w[w[i].parent].height, w[i])
      ensures FinalType(w[i].nodeType, w[i].changeTypes) == w[w[i].parent].nodeType
    {
      if i != k {
        assert w[i] == v[i];
      }
    }
  }

  /** The move leaves every parent, child list, type and height as it was. */
  lemma LaidKeepsLinks(v: seq<NodeRec>, k: int, l: real, u: real)
    requires Shaped(v) && UniformNodes.Linked(v) && 0 <= k < |v|
    ensures var w := Laid(v, k, l, u);
      Shaped(w) && UniformNodes.Linked(w) &&
      forall i :: 0 <= i < |v| ==>
        (w[i].parent == v[i].parent && w[i].height == v[i].height &&
         w[i].nodeType == v[i].nodeType && (i != k ==> w[i] == v[i]))
  {
  }

  /** Node n after the move, for the parent height top. */
  function LaidNode(n: NodeRec, top: real, l: real, u: real): NodeRec
  {
    var len := top - n.height;
    var x := Offset(u, len, l);
    n.(changeTypes := [0, 1], changeTimes := [n.height + x, n.height + x + Share(len, l)], changeCount := 2)
  }

  /** The new branch of an active node is ordered and ends active. */
  lemma LaidBranch(n: NodeRec, top: real, l: real, u: real)
    requires BranchTimesOrdered(top, n) && n.nodeType == 1 && 0.0 <= l <= 1.0 && 0.0 <= u <= 1.0
    ensures BranchTimesOrdered(top, LaidNode(n, top, l, u))
    ensures FinalType(n.nodeType, LaidNode(n, top, l, u).changeTypes) == 1
  {
    UniformNodes.FinalBelowTop(top, n);
    StretchOrdered(n.height, top, l, u);
    var m := LaidNode(n, top, l, u);
    assert [m.height] + m.changeTimes + [top] == [n.height, m.changeTimes[0], m.changeTimes[1], top];
  }

  /** h <= h + x <= h + x + len * l <= top for len = top - h >= 0, l and u in [0, 1]. */
  lemma StretchOrdered(h: real, top: real, l: real, u: real)
    requires h <= top && 0.0 <= l <= 1.0 && 0.0 <= u <= 1.0
    ensures var len := top - h;
      var x := Offset(u, len, l);
      Ascending([h, h + x, h + x + Share(len, l), top])
  {
    var len := top - h;
    var rest := len * (1.0 - l);
    UniformNodes.ProductNonNegative(len, 1.0 - l);
    UniformNodes.ProductNonNegative(len, l);
    UniformNodes.ProductNonNegative(u, rest);
    UniformNodes.ProductNonNegative(1.0 - u, rest);
    assert u * rest + (1.0 - u) * rest == rest;
    assert rest + len * l == len;
  }

  /* ---------------------------------------------------------------------
   * The operator on the tree.
   */

  method Proposal(t: SeedbankTree, lambdas: seq<real>, indicator: seq<int>, pick: nat, u: real) returns (r: Result<Double>)
    requires t.Wf() && |lambdas| == |indicator|
    modifies t.nodes
    ensures t.Wf()
    ensures var s := Moved(old(t.View()), lambdas, indicator, pick, u);
      r == s.result && t.View() == s.view
  {
    var chosen := Choose(indicator, pick);
    if chosen.None? {
      return Ok(NegInf);
    }
    var index := chosen.value;
    var l := lambdas[index];
    if l == 0.0 {
      return Ok(NegInf);
    }
    if index >= |t.nodes| {
      return Fail(IndexOutOfBounds);
    }
    r := Move(t, index, l, u);
  }

  /** The move on node k once its slot and lambda are known. */
  method Move(t: SeedbankTree, index: int, l: real, u: real) returns (r: Result<Double>)
    requires t.Wf() && 0 <= index < |t.nodes|
    modifies t.nodes
    ensures t.Wf() && t.View() == Laid(old(t.View()), index, l, u) && r == Ok(Finite(0.0))
  {
    var sbNode := t.nodes[index];
    ghost var v := t.View();
    assert sbNode.Record() == v[index];
    var len := if sbNode.parent == -1 then 0.0 else t.nodes[sbNode.parent].height - sbNode.height;
    assert sbNode.parent != -1 ==> t.nodes[sbNode.parent].Record() == v[sbNode.parent];
    assert len == BranchLength(v, index);
    var transitionLoc := Offset(u, len, l);
    LayStretch(t, index, sbNode.height + transitionLoc, sbNode.height + transitionLoc + Share(len, l));
    r := Ok(Finite(0.0));
  }

  /** The slot of proposal(): loc filled by the scan, then loc[nextInt(locIndex)]. */
  method Choose(indicator: seq<int>, pick: nat) returns (c: Option<int>)
    ensures c == Chosen(indicator, pick)
  {
    var loc, locIndex := Locations(indicator);
    if locIndex > 0 {
      var rand := pick % locIndex;
      c := Some(loc[rand]);
    } else {
      c := None;
    }
  }

  /** The scan that fills loc with the indicated positions. */
  method Locations(indicator: seq<int>) returns (loc: array<int>, locIndex: int)
    ensures loc.Length == |indicator| + 1 && 0 <= locIndex <= |indicator|
    ensures loc[..locIndex] == ActiveSlots(indicator)
  {
    loc := new int[|indicator| + 1];
    locIndex := 0;
    var i := 0;
    while i < |indicator|
      invariant 0 <= locIndex <= i <= |indicator|
      invariant loc[..locIndex] == ActiveSlots(indicator[..i])
    {
      assert indicator[..i + 1][..i] == indicator[..i];
      if indicator[i] == 1 {
        loc[locIndex] := i;
        locIndex := locIndex + 1;
      }
      i := i + 1;
    }
    assert indicator[..|indicator|] == indicator;
  }

  /** clearChanges, then addChange(0, a) and addChange(1, b) on node k. */
  method LayStretch(t: SeedbankTree, k: int, a: real, b: real)
    requires t.Wf() && 0 <= k < |t.nodes|
    modifies t.nodes[k]
    ensures t.Wf()
    ensures t.View() == Restretched(old(t.View()), k, a, b)
  {
    ghost var v := t.View();
    ClearAt(t, k);
    AddChangeAt(t, k, 0, a);
    AddChangeAt(t, k, 1, b);
    assert t.View()[k] == Restretched(v, k, a, b)[k];
  }
}
