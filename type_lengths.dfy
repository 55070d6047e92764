// The dormant and active parts of a branch and of a whole tree, read the
// way the clock models and the loggers read them: a branch runs from its
// node's height through its change times to its parent's height, starting
// in the node's own type and flipping at every change (the stored change
// types are not read).

module TypeLengths {
  import opened Wrappers
  import opened SeedbankNodes
  import opened SeedbankTrees

  /**
   * The per-branch accumulation loop shared by calculateRates, the type
   * lengths logger and the dormant percentage logger. It gives up (None) on
   * a node type other than 0 or 1, before adding anything for that branch.
   */
  method BranchLengths(n: NodeRec, parentHeight: real) returns (r: Option<(real, real)>)
    requires n.Consistent()
    ensures r.None? <==> !(n.nodeType == 0 || n.nodeType == 1)
    ensures r.Some? ==> r.value.0 == FlipLength(0, n.nodeType, n.height, n.changeTimes, parentHeight)
    ensures r.Some? ==> r.value.1 == FlipLength(1, n.nodeType, n.height, n.changeTimes, parentHeight)
  {
    var dormant := 0.0;
    var active := 0.0;
    var ty := n.nodeType;
    var previous := n.height;
    var i := 0;
    while i < n.changeCount
      invariant 0 <= i <= n.changeCount
      invariant ty == n.nodeType || ty == 1 - n.nodeType
      invariant (ty == 0 || ty == 1) <==> (n.nodeType == 0 || n.nodeType == 1)
      invariant dormant + FlipLength(0, ty, previous, n.changeTimes[i..], parentHeight) ==
                FlipLength(0, n.nodeType, n.height, n.changeTimes, parentHeight)
      invariant active + FlipLength(1, ty, previous, n.changeTimes[i..], parentHeight) ==
                FlipLength(1, n.nodeType, n.height, n.changeTimes, parentHeight)
    {
      var change := n.changeTimes[i];
      assert n.changeTimes[i..][1..] == n.changeTimes[i + 1..];
      if ty == 0 {
        dormant := dormant + (change - previous);
      } else if ty == 1 {
        active := active + (change - previous);
      } else {
        return None;
      }
      previous := change;
      ty := 1 - ty;
      i := i + 1;
    }
    assert n.changeTimes[i..] == [];
    if ty == 0 {
      dormant := dormant + (parentHeight - previous);
    } else if ty == 1 {
      active := active + (parentHeight - previous);
    } else {
      return None;
    }
    return Some((dormant, active));
  }

  /** On a branch whose change times lie in order between its two ends, both parts are non-negative. */
  lemma OrderedBranchNonNegative(n: NodeRec, top: real)
    requires BranchTimesOrdered(top, n)
    ensures FlipLength(0, n.nodeType, n.height, n.changeTimes, top) >= 0.0
    ensures FlipLength(1, n.nodeType, n.height, n.changeTimes, top) >= 0.0
  {
    var seg := [n.height] + n.changeTimes + [top];
    assert forall i, j :: 0 <= i < j < |n.changeTimes| ==> n.changeTimes[i] <= n.changeTimes[j] by {
      forall i, j | 0 <= i < j < |n.changeTimes|
        ensures n.changeTimes[i] <= n.changeTimes[j]
      {
        AscendingIsSorted(seg, i + 1, j + 1);
      }
    }
    if |n.changeTimes| > 0 {
      AscendingIsSorted(seg, 0, 1);
      AscendingIsSorted(seg, |n.changeTimes|, |n.changeTimes| + 1);
    } else {
      AscendingIsSorted(seg, 0, 1);
    }
    FlipLengthNonNegative(0, n.nodeType, n.height, n.changeTimes, top);
    FlipLengthNonNegative(1, n.nodeType, n.height, n.changeTimes, top);
  }

  /** The part of type ty of branch i; 0 for the root. */
  function BranchPart(v: seq<NodeRec>, ty: int, i: int): real
    requires Shaped(v) && 0 <= i < |v|
  {
    if v[i].parent == -1 then 0.0
    else FlipLength(ty, v[i].nodeType, v[i].height, v[i].changeTimes, v[v[i].parent].height)
  }

  /** The type-ty length of the first n nodes' branches. */
  function TreePart(v: seq<NodeRec>, ty: int, n: nat): real
    requires Shaped(v) && n <= |v|
  {
    if n == 0 then 0.0 else TreePart(v, ty, n - 1) + BranchPart(v, ty, n - 1)
  }

  /** The summed branch length of the first n nodes (parent height minus height, roots skipped). */
  function TreeLength(v: seq<NodeRec>, n: nat): real
    requires Shaped(v) && n <= |v|
  {
    if n == 0 then 0.0
    else TreeLength(v, n - 1) + (if v[n - 1].parent == -1 then 0.0 else v[v[n - 1].parent].height - v[n - 1].height)
  }

  /** A non-root node whose type is not 0 or 1: the loops index out of their two-slot arrays there. */
  predicate BadType(v: seq<NodeRec>, i: int)
    requires 0 <= i < |v|
  {
    v[i].parent != -1 && !(v[i].nodeType == 0 || v[i].nodeType == 1)
  }

  /** Every stretch of every non-root branch is credited to exactly one of the two types. */
  lemma {:induction false} TreePartition(v: seq<NodeRec>, n: nat)
    requires Shaped(v) && n <= |v|
    requires forall i :: 0 <= i < n ==> !BadType(v, i)
    ensures TreePart(v, 0, n) + TreePart(v, 1, n) == TreeLength(v, n)
  {
    if n > 0 {
      TreePartition(v, n - 1);
      var i := n - 1;
      if v[i].parent != -1 {
        assert !BadType(v, i);
        FlipPartition(v[i].nodeType, v[i].height, v[i].changeTimes, v[v[i].parent].height);
      }
    }
  }

  /** On a tree whose branches are time-ordered both totals are non-negative. */
  lemma {:induction false} TreePartNonNegative(v: seq<NodeRec>, ty: int, n: nat)
    requires Shaped(v) && n <= |v| && (ty == 0 || ty == 1)
    requires forall i :: 0 <= i < n && v[i].parent != -1 ==> BranchTimesOrdered(v[v[i].parent].height, v[i])
    ensures TreePart(v, ty, n) >= 0.0
  {
    if n > 0 {
      TreePartNonNegative(v, ty, n - 1);
      var i := n - 1;
      if v[i].parent != -1 {
        OrderedBranchNonNegative(v[i], v[v[i].parent].height);
      }
    }
  }
}
