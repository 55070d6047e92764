// SeedbankTreeDormantScale: pick one dormant stretch of a branch (a time
// interval the lineage spends in the seed bank) and redraw where it starts
// and ends inside the interval between the events around it. The
// proposal is symmetric, so its log Hastings ratio is 0.
//
// A branch above a dormant node (type 0) is dormant from the node up to
// its first change, then between its second and third changes, and so
// on; above an active node (type 1) it is dormant between its first and
// second changes, its third and fourth, and so on.
//
// The draws stand for Randomizer.nextInt (pick, taken modulo the bound)
// and the two Randomizer.nextDouble calls (u1, u2).

module DormantScale {
  import opened Wrappers
  import opened Doubles
  import opened SeedbankNodes
  import opened SeedbankTrees
  import opened TreeSurgery
  import opened Retype
  import PairMoves
  import UniformNodes

  /* ---------------------------------------------------------------------
   * Counting the dormant stretches.
   */

  /** 1 for a dormant node, 0 otherwise. */
  function IsDormant(n: NodeRec): int
  {
    if n.nodeType == 0 then 1 else 0
  }

  /** The dormant stretches of the branch above n, as the selection walk counts them. */
  function Stretches(n: NodeRec): int
  {
    (n.changeCount + IsDormant(n)) / 2
  }

  /**
   * The dormant stretches of node n as the first count of proposal() adds
   * them up: a leaf by its type (type 1 active, any other type dormant),
   * an internal node, the root included, as if it were active.
   */
  function Declared(n: NodeRec): int
  {
    if IsLeaf(n) then (if n.nodeType == 1 then n.changeCount / 2 else (n.changeCount + 1) / 2)
    else n.changeCount / 2
  }

  /** The count d of proposal(), over nodes 0..k-1. */
  function DeclaredBefore(v: seq<NodeRec>, k: int): int
    requires 0 <= k <= |v|
  {
    if k == 0 then 0 else DeclaredBefore(v, k - 1) + Declared(v[k - 1])
  }

  /** The stretches the walk sees on the non-root branches above nodes 0..k-1. */
  function StretchesBefore(v: seq<NodeRec>, k: int): int
    requires 0 <= k <= |v|
  {
    if k == 0 then 0
    else StretchesBefore(v, k - 1) + (if v[k - 1].parent == -1 then 0 else Stretches(v[k - 1]))
  }

  lemma {:induction false} StretchesGrow(v: seq<NodeRec>, j: int, k: int)
    requires Shaped(v) && 0 <= j <= k <= |v|
    ensures StretchesBefore(v, j) <= StretchesBefore(v, k)
    decreases k - j
  {
    if j < k {
      StretchesGrow(v, j, k - 1);
      assert v[k - 1].Consistent();
    }
  }

  /**
   * The walk of proposal() from node `from` on: skip the root, stop on the
   * branch whose count exceeds the remaining number, otherwise subtract
   * that count and go on.
   */
  function Landed(v: seq<NodeRec>, from: int, edgeNum: int): (r: PairMoves.Walk)
    requires Shaped(v) && 0 <= from <= |v| && edgeNum >= 0
    ensures r.Found? ==> from <= r.node < |v| && v[r.node].parent != -1 && 0 <= r.local < Stretches(v[r.node])
    decreases |v| - from
  {
    if from == |v| then PairMoves.Missed(edgeNum)
    else if v[from].parent == -1 then Landed(v, from + 1, edgeNum)
    else if edgeNum < Stretches(v[from]) then PairMoves.Found(from, edgeNum)
    else Landed(v, from + 1, edgeNum - Stretches(v[from]))
  }

  /**
   * The walk numbers the stretches consecutively: it stops exactly when the
   * number is below the stretches still ahead, on the stretch with that
   * number.
   */
  lemma {:induction false} LandedNumbering(v: seq<NodeRec>, from: int, edgeNum: int)
    requires Shaped(v) && 0 <= from <= |v| && edgeNum >= 0
    ensures Landed(v, from, edgeNum).Found? <==> edgeNum < StretchesBefore(v, |v|) - StretchesBefore(v, from)
    ensures var w := Landed(v, from, edgeNum);
      w.Found? ==> StretchesBefore(v, from) + edgeNum == StretchesBefore(v, w.node) + w.local
    decreases |v| - from
  {
    if from < |v| {
      StretchesGrow(v, from + 1, |v|);
      if v[from].parent == -1 {
        LandedNumbering(v, from + 1, edgeNum);
      } else if edgeNum >= Stretches(v[from]) {
        LandedNumbering(v, from + 1, edgeNum - Stretches(v[from]));
      }
    }
  }

  /**
   * The count d and the walk agree node by node when every internal node is
   * active, every leaf is dormant or active, and the root carries no
   * change.
   */
  lemma {:induction false} DeclaredIsWalked(v: seq<NodeRec>, k: int)
    requires Shaped(v) && 0 <= k <= |v|
    requires forall i :: 0 <= i < |v| && !IsLeaf(v[i]) ==> v[i].nodeType == 1
    requires forall i :: 0 <= i < |v| && IsLeaf(v[i]) ==> v[i].nodeType == 0 || v[i].nodeType == 1
    requires forall i :: 0 <= i < |v| && v[i].parent == -1 ==> v[i].changeCount == 0
    ensures DeclaredBefore(v, k) == StretchesBefore(v, k)
    decreases k
  {
    if k > 0 {
      DeclaredIsWalked(v, k - 1);
    }
  }

  /**
   * On such a tree every number drawn below d lands on a stretch, so the
   * walk never leaves selectedNode null.
   */
  lemma DrawAlwaysLands(v: seq<NodeRec>, pick: nat)
    requires Shaped(v)
    requires forall i :: 0 <= i < |v| && !IsLeaf(v[i]) ==> v[i].nodeType == 1
    requires forall i :: 0 <= i < |v| && IsLeaf(v[i]) ==> v[i].nodeType == 0 || v[i].nodeType == 1
    requires forall i :: 0 <= i < |v| && v[i].parent == -1 ==> v[i].changeCount == 0
    requires DeclaredBefore(v, |v|) > 0
    ensures Landed(v, 0, pick % DeclaredBefore(v, |v|)).Found?
  {
    DeclaredIsWalked(v, |v|);
    LandedNumbering(v, 0, pick % DeclaredBefore(v, |v|));
  }

  /* ---------------------------------------------------------------------
   * Redrawing one stretch.
   */

  /** True when the stretch is the one that starts at a dormant node; only its upper end moves. */
  predicate FromSample(n: NodeRec, e: int)
  {
    n.nodeType == 0 && e == 0
  }

  /** The index of the first change the move redraws. */
  function Base(n: NodeRec, e: int): int
  {
    if FromSample(n, e) then 0 else 2 * e - IsDormant(n)
  }

  /**
   * The interval stretch e of n moves in: from the node (or the change
   * below the stretch) to the change above it (or the parent height top).
   */
  function Window(n: NodeRec, e: int, top: real): (w: (real, real))
    requires n.Consistent() && 0 <= e < Stretches(n)
    ensures !FromSample(n, e) ==> 0 <= Base(n, e) && Base(n, e) + 2 <= n.changeCount
    ensures FromSample(n, e) ==> 1 <= n.changeCount
  {
    if FromSample(n, e) then
      (n.height, if n.changeCount == 1 then top else n.changeTimes[1])
    else
      var b := Base(n, e);
      (if b == 0 then n.height else n.changeTimes[b - 1],
       if n.changeCount == b + 2 then top else n.changeTimes[b + 2])
  }

  /**
   * The move on stretch e of node k: new times lower + u * (upper - lower);
   * a draw at the lower end, or two equal draws, rejects with nothing
   * changed; otherwise the change (or the two changes, in order) is set and
   * the ratio is 0.
   */
  function Redrawn(v: seq<NodeRec>, k: int, e: int, u1: real, u2: real): (r: PairMoves.Edited)
    requires Shaped(v) && 0 <= k < |v| && v[k].parent != -1 && 0 <= e < Stretches(v[k])
  {
    var n := v[k];
    var win := Window(n, e, v[n.parent].height);
    var x := VirtualTime(u1, win.1 - win.0, win.0);
    if FromSample(n, e) then
      if x == win.0 then PairMoves.Edited(Ok(NegInf), v)
      else PairMoves.Edited(Ok(Finite(0.0)), RetimedIn(v, k, 0, x))
    else
      var b := Base(n, e);
      var y := VirtualTime(u2, win.1 - win.0, win.0);
      if x == win.0 || y == win.0 || x == y then PairMoves.Edited(Ok(NegInf), v)
      else
        var ends := PairMoves.Ordered(x, y);
        var w1 := RetimedIn(v, k, b, ends.0);
        PairMoves.Edited(Ok(Finite(0.0)), RetimedIn(w1, k, b + 1, ends.1))
  }

  /**
   * SeedbankTreeDormantScale.proposal: with no dormant stretch counted the
   * move rejects; a draw the walk runs past raises NullPointerException
   * (selectedNode stays null); otherwise the drawn stretch is redrawn.
   */
  function DormantScaling(v: seq<NodeRec>, pick: nat, u1: real, u2: real): (r: PairMoves.Edited)
    requires Shaped(v)
    ensures r.result.Ok? ==> r.result.value == NegInf || r.result.value == Finite(0.0)
    ensures r.result.Fail? ==> r.result.error == NullPointer && r.view == v
    ensures r.result == Ok(NegInf) ==> r.view == v
  {
    var d := DeclaredBefore(v, |v|);
    if d <= 0 then PairMoves.Edited(Ok(NegInf), v)
    else
      match Landed(v, 0, pick % d)
      case Missed(_) => PairMoves.Edited(Fail(NullPointer), v)
      case Found(k, e) => Redrawn(v, k, e, u1, u2)
  }

  /* ---------------------------------------------------------------------
   * Properties of the move.
   */

  /** Two arenas alike in links, types and change counts: differing at most in times. */
  predicate SameButTimes(v: seq<NodeRec>, w: seq<NodeRec>)
  {
    |w| == |v| &&
    forall i :: 0 <= i < |v| ==>
      w[i].parent == v[i].parent && w[i].children == v[i].children && w[i].nodeType == v[i].nodeType &&
      w[i].changeTypes == v[i].changeTypes && w[i].changeCount == v[i].changeCount
  }

  /** Such arenas count the same dormant stretches and walk to the same stretch for every number. */
  lemma {:induction false} SameLanding(v: seq<NodeRec>, w: seq<NodeRec>, from: int, edgeNum: int)
    requires Shaped(v) && Shaped(w) && SameButTimes(v, w) && 0 <= from <= |v| && edgeNum >= 0
    ensures Landed(w, from, edgeNum) == Landed(v, from, edgeNum)
    decreases |v| - from
  {
    if from < |v| {
      assert Stretches(w[from]) == Stretches(v[from]);
      if v[from].parent == -1 {
        SameLanding(v, w, from + 1, edgeNum);
      } else if edgeNum >= Stretches(v[from]) {
        SameLanding(v, w, from + 1, edgeNum - Stretches(v[from]));
      }
    }
  }

  lemma {:induction false} SameDeclared(v: seq<NodeRec>, w: seq<NodeRec>, k: int)
    requires SameButTimes(v, w) && 0 <= k <= |v|
    ensures DeclaredBefore(w, k) == DeclaredBefore(v, k)
    decreases k
  {
    if k > 0 {
      SameDeclared(v, w, k - 1);
      assert Declared(w[k - 1]) == Declared(v[k - 1]);
    }
  }

  /** Setting two different change times in either order gives the same arena. */
  lemma RetimesCommute(v: seq<NodeRec>, k: int, i: int, j: int, x: real, y: real)
    requires Shaped(v) && 0 <= k < |v| && 0 <= i < v[k].changeCount && 0 <= j < v[k].changeCount && i != j
    ensures RetimedIn(RetimedIn(v, k, i, x), k, j, y) == RetimedIn(RetimedIn(v, k, j, y), k, i, x)
  {
    assert v[k].changeTimes[i := x][j := y] == v[k].changeTimes[j := y][i := x];
  }

  /** The window of a stretch is the window of its first redrawn change seen from below, and of the second seen from above. */
  lemma WindowIsChangeWindow(n: NodeRec, e: int, top: real)
    requires n.Consistent() && 0 <= e < Stretches(n)
    ensures var win := Window(n, e, top);
      var b := Base(n, e);
      (FromSample(n, e) ==> UniformNodes.ChangeWindow(n, 0, top) == win) &&
      (!FromSample(n, e) ==>
        UniformNodes.ChangeWindow(n, b, top).0 == win.0 && UniformNodes.ChangeWindow(n, b + 1, top).1 == win.1 &&
        UniformNodes.ChangeWindow(n, b, top).1 == n.changeTimes[b + 1] &&
        UniformNodes.ChangeWindow(n, b + 1, top).0 == n.changeTimes[b])
  {
  }

  /** On an ordered branch a stretch's window is not empty and holds the changes it redraws. */
  lemma WindowOrdered(n: NodeRec, e: int, top: real)
    requires n.Consistent() && 0 <= e < Stretches(n) && BranchTimesOrdered(top, n)
    ensures var win := Window(n, e, top);
      var b := Base(n, e);
      win.0 <= win.1 &&
      (!FromSample(n, e) ==> win.0 <= n.changeTimes[b] <= n.changeTimes[b + 1] <= win.1)
  {
    var s := [n.height] + n.changeTimes + [top];
    var b := Base(n, e);
    if FromSample(n, e) {
      assert s[0] == Window(n, e, top).0 && s[2] == Window(n, e, top).1;
      AscendingIsSorted(s, 0, 2);
    } else {
      assert s[b] == Window(n, e, top).0 && s[b + 3] == Window(n, e, top).1;
      assert s[b + 1] == n.changeTimes[b] && s[b + 2] == n.changeTimes[b + 1];
      AscendingIsSorted(s, b, b + 3);
    }
  }

  /**
   * The move keeps every branch time-ordered: the new times are drawn
   * inside the window, and the two ends of a stretch are put in order.
   * Links, types and change counts are not touched.
   */
  lemma RedrawKeepsValidity(v: seq<NodeRec>, k: int, e: int, u1: real, u2: real)
    requires Shaped(v) && UniformNodes.Linked(v) && AllBranchesOrdered(v) && AllTypesMatch(v)
    requires 0 <= k < |v| && v[k].parent != -1 && 0 <= e < Stretches(v[k])
    requires 0.0 <= u1 <= 1.0 && 0.0 <= u2 <= 1.0
    ensures var w := Redrawn(v, k, e, u1, u2).view;
      SameButTimes(v, w) && UniformNodes.Linked(w) && AllBranchesOrdered(w) && AllTypesMatch(w)
  {
    var w := Redrawn(v, k, e, u1, u2).view;
    if FromSample(v[k], e) {
      FirstKeepsOrder(v, k, u1);
    } else {
      PairKeepsOrder(v, k, e, u1, u2);
    }
    RedrawnTimesOnly(v, k, e, u1, u2);
    UniformNodes.SameLinksAndTypes(v, w);
  }

  /** The move rewrites change times of node k only. */
  lemma RedrawnTimesOnly(v: seq<NodeRec>, k: int, e: int, u1: real, u2: real)
    requires Shaped(v) && 0 <= k < |v| && v[k].parent != -1 && 0 <= e < Stretches(v[k])
    ensures var w := Redrawn(v, k, e, u1, u2).view;
      SameButTimes(v, w) && (forall i :: 0 <= i < |v| && i != k ==> w[i] == v[i]) &&
      w[k].height == v[k].height
  {
    var n := v[k];
    var win := Window(n, e, v[n.parent].height);
    var x := VirtualTime(u1, win.1 - win.0, win.0);
    var y := VirtualTime(u2, win.1 - win.0, win.0);
    if FromSample(n, e) {
      assert x != win.0 ==> Redrawn(v, k, e, u1, u2).view == RetimedIn(v, k, 0, x);
    } else if !(x == win.0 || y == win.0 || x == y) {
      var ends := PairMoves.Ordered(x, y);
      assert Redrawn(v, k, e, u1, u2).view == RetimedIn(RetimedIn(v, k, Base(n, e), ends.0), k, Base(n, e) + 1, ends.1);
    }
  }

  /** The lower end of the window, the time redrawn within it, and the window's upper end, for the first stretch of a dormant node. */
  lemma FirstKeepsOrder(v: seq<NodeRec>, k: int, u1: real)
    requires Shaped(v) && UniformNodes.Linked(v) && AllBranchesOrdered(v)
    requires 0 <= k < |v| && v[k].parent != -1 && FromSample(v[k], 0) && 0 < Stretches(v[k])
    requires 0.0 <= u1 <= 1.0
    ensures AllBranchesOrdered(Redrawn(v, k, 0, u1, 0.0).view)
  {
    var n := v[k];
    var top := v[n.parent].height;
    var win := Window(n, 0, top);
    assert BranchTimesOrdered(top, n);
    WindowOrdered(n, 0, top);
    WindowIsChangeWindow(n, 0, top);
    var x := VirtualTime(u1, win.1 - win.0, win.0);
    PairMoves.DrawnBetween(u1, win.0, win.1);
    if x != win.0 {
      UniformNodes.ChangeMoveKeepsOrder(v, k, 0, x);
    }
  }

  /** Both ends of any other stretch are redrawn inside the window and set in order. */
  lemma PairKeepsOrder(v: seq<NodeRec>, k: int, e: int, u1: real, u2: real)
    requires Shaped(v) && UniformNodes.Linked(v) && AllBranchesOrdered(v)
    requires 0 <= k < |v| && v[k].parent != -1 && 0 <= e < Stretches(v[k]) && !FromSample(v[k], e)
    requires 0.0 <= u1 <= 1.0 && 0.0 <= u2 <= 1.0
    ensures AllBranchesOrdered(Redrawn(v, k, e, u1, u2).view)
  {
    var n := v[k];
    var top := v[n.parent].height;
    var win := Window(n, e, top);
    assert BranchTimesOrdered(top, n);
    WindowOrdered(n, e, top);
    WindowIsChangeWindow(n, e, top);
    var x := VirtualTime(u1, win.1 - win.0, win.0);
    var y := VirtualTime(u2, win.1 - win.0, win.0);
    PairMoves.DrawnBetween(u1, win.0, win.1);
    PairMoves.DrawnBetween(u2, win.0, win.1);
    if !(x == win.0 || y == win.0 || x == y) {
      var ends := PairMoves.Ordered(x, y);
      TwoRetimesKeepOrder(v, k, Base(n, e), ends.0, ends.1);
      assert Redrawn(v, k, e, u1, u2).view == RetimedIn(RetimedIn(v, k, Base(n, e), ends.0), k, Base(n, e) + 1, ends.1);
    } else {
      assert Redrawn(v, k, e, u1, u2).view == v;
    }
  }

  /** Two neighbouring changes set to lo <= hi inside the window around both keep every branch ordered. */
  lemma TwoRetimesKeepOrder(v: seq<NodeRec>, k: int, b: int, lo: real, hi: real)
    requires Shaped(v) && UniformNodes.Linked(v) && AllBranchesOrdered(v)
    requires 0 <= k < |v| && v[k].parent != -1 && 0 <= b && b + 1 < v[k].changeCount
    requires UniformNodes.ChangeWindow(v[k], b, v[v[k].parent].height).0 <= lo <= hi
    requires hi <= UniformNodes.ChangeWindow(v[k], b + 1, v[v[k].parent].height).1
    ensures AllBranchesOrdered(RetimedIn(RetimedIn(v, k, b, lo), k, b + 1, hi))
  {
    var n := v[k];
    assert BranchTimesOrdered(v[n.parent].height, n);
    var s := [n.height] + n.changeTimes + [v[n.parent].height];
    assert s[b + 1] == n.changeTimes[b] && s[b + 2] == n.changeTimes[b + 1];
    if lo <= n.changeTimes[b + 1] {
      var w1 := RetimedIn(v, k, b, lo);
      UniformNodes.ChangeMoveKeepsOrder(v, k, b, lo);
      UniformNodes.SameLinksAndTypes(v, w1);
      UniformNodes.ChangeMoveKeepsOrder(w1, k, b + 1, hi);
    } else {
      var w1 := RetimedIn(v, k, b + 1, hi);
      UniformNodes.ChangeMoveKeepsOrder(v, k, b + 1, hi);
      UniformNodes.SameLinksAndTypes(v, w1);
      UniformNodes.ChangeMoveKeepsOrder(w1, k, b, lo);
      RetimesCommute(v, k, b, b + 1, lo, hi);
    }
  }

  /**
   * The move is its own reverse: after an accepted move the walk reaches
   * the same stretch for every number, d is unchanged, and the stretch's
   * window is unchanged and holds the redrawn times strictly above its
   * lower end, in order. The reverse move is drawn from the same interval
   * with the same probability, which is why the ratio is 0.
   */
  lemma RedrawIsSymmetric(v: seq<NodeRec>, k: int, e: int, u1: real, u2: real, edgeNum: nat)
    requires Shaped(v) && 0 <= k < |v| && v[k].parent != -1 && 0 <= e < Stretches(v[k])
    requires BranchTimesOrdered(v[v[k].parent].height, v[k])
    requires 0.0 <= u1 <= 1.0 && 0.0 <= u2 <= 1.0
    requires Redrawn(v, k, e, u1, u2).result != Ok(NegInf)
    ensures var w := Redrawn(v, k, e, u1, u2).view;
      var win := Window(v[k], e, v[v[k].parent].height);
      var b := Base(v[k], e);
      SameButTimes(v, w) && Landed(w, 0, edgeNum) == Landed(v, 0, edgeNum) &&
      DeclaredBefore(w, |w|) == DeclaredBefore(v, |v|) &&
      Stretches(w[k]) == Stretches(v[k]) && Window(w[k], e, w[w[k].parent].height) == win &&
      win.0 < w[k].changeTimes[b] &&
      (!FromSample(v[k], e) ==> w[k].changeTimes[b] < w[k].changeTimes[b + 1])
  {
    var w := Redrawn(v, k, e, u1, u2).view;
    var n := v[k];
    var top := v[n.parent].height;
    var win := Window(n, e, top);
    RedrawnTimesOnly(v, k, e, u1, u2);
    WindowOrdered(n, e, top);
    PairMoves.DrawnBetween(u1, win.0, win.1);
    PairMoves.DrawnBetween(u2, win.0, win.1);
    SameLanding(v, w, 0, edgeNum);
    SameDeclared(v, w, |v|);
  }

  /** An accepted proposal keeps the tree valid. */
  lemma DormantScalingKeepsValidity(v: seq<NodeRec>, pick: nat, u1: real, u2: real)
    requires Shaped(v) && UniformNodes.Linked(v) && AllBranchesOrdered(v) && AllTypesMatch(v)
    requires 0.0 <= u1 <= 1.0 && 0.0 <= u2 <= 1.0
    ensures var w := DormantScaling(v, pick, u1, u2).view;
      SameButTimes(v, w) && UniformNodes.Linked(w) && AllBranchesOrdered(w) && AllTypesMatch(w)
  {
    var d := DeclaredBefore(v, |v|);
    if d > 0 {
      var l := Landed(v, 0, pick % d);
      if l.Found? {
        RedrawKeepsValidity(v, l.node, l.local, u1, u2);
      }
    }
  }

  /* ---------------------------------------------------------------------
   * The operator on the tree.
   */

  method Proposal(t: SeedbankTree, pick: nat, u1: real, u2: real) returns (r: Result<Double>)
    requires t.Wf()
    modifies t.nodes
    ensures t.Wf()
    ensures var s := DormantScaling(old(t.View()), pick, u1, u2);
      r == s.result && t.View() == s.view
  {
    ghost var v := t.View();
    var d := Count(t);
    if d <= 0 {
      return Ok(NegInf);
    }
    var k, e := Walk(t, pick % d);
    if k == |t.nodes| {
      return Fail(NullPointer);
    }
    assert Landed(v, 0, pick % d) == PairMoves.Found(k, e);
    r := Redraw(t, k, e, u1, u2);
  }

  /** The first loop: the number d of dormant stretches. */
  method Count(t: SeedbankTree) returns (d: int)
    requires t.Wf()
    ensures d == DeclaredBefore(t.View(), |t.nodes|)
  {
    ghost var v := t.View();
    d := 0;
    var i := 0;
    while i < |t.nodes|
      invariant 0 <= i <= |t.nodes|
      invariant d == DeclaredBefore(v, i)
    {
      var nd := t.nodes[i];
      assert nd.Record() == v[i];
      if |nd.children| == 0 {
        if nd.nodeType == 1 {
          d := d + nd.nTypeChanges / 2;
        } else {
          d := d + (nd.nTypeChanges + 1) / 2;
        }
      } else {
        d := d + nd.nTypeChanges / 2;
      }
      i := i + 1;
    }
  }

  /** The selection loop; k == |nodes| when it runs past the last node. */
  method Walk(t: SeedbankTree, edgeNum: nat) returns (k: int, e: int)
    requires t.Wf()
    ensures var w := Landed(t.View(), 0, edgeNum);
      (k == |t.nodes| <==> w.Missed?) && (w.Found? ==> k == w.node && e == w.local)
  {
    ghost var v := t.View();
    k, e := 0, edgeNum;
    while k < |t.nodes|
      invariant 0 <= k <= |t.nodes| && e >= 0
      invariant Landed(v, k, e) == Landed(v, 0, edgeNum)
    {
      var nd := t.nodes[k];
      assert nd.Record() == v[k];
      if nd.parent != -1 {
        var isDormant := if nd.nodeType == 0 then 1 else 0;
        var dormantCount := (nd.nTypeChanges + isDormant) / 2;
        if e < dormantCount {
          return;
        }
        e := e - dormantCount;
      }
      k := k + 1;
    }
  }

  /** The move on the selected stretch. */
  method Redraw(t: SeedbankTree, k: int, e: int, u1: real, u2: real) returns (r: Result<Double>)
    requires t.Wf() && 0 <= k < |t.nodes|
    requires t.View()[k].parent != -1 && 0 <= e < Stretches(t.View()[k])
    modifies t.nodes
    ensures t.Wf()
    ensures var s := Redrawn(old(t.View()), k, e, u1, u2);
      r == s.result && t.View() == s.view
  {
    var nd := t.nodes[k];
    assert nd.Record() == t.View()[k];
    if nd.nodeType == 0 && e == 0 {
      r := RedrawFirst(t, k, u1);
    } else {
      r := RedrawPair(t, k, e, u1, u2);
    }
  }

  /** The stretch that starts at a dormant node: only its first change moves. */
  method RedrawFirst(t: SeedbankTree, k: int, u1: real) returns (r: Result<Double>)
    requires t.Wf() && 0 <= k < |t.nodes|
    requires t.View()[k].parent != -1 && FromSample(t.View()[k], 0) && 0 < Stretches(t.View()[k])
    modifies t.nodes
    ensures t.Wf()
    ensures var s := Redrawn(old(t.View()), k, 0, u1, 0.0);
      r == s.result && t.View() == s.view
  {
    ghost var v := t.View();
    var nd := t.nodes[k];
    assert nd.Record() == v[k];
    var top := t.nodes[nd.parent].height;
    assert t.nodes[nd.parent].Record() == v[nd.parent];
    var lower := nd.height;
    var upper := if nd.nTypeChanges == 1 then top else nd.changeTimes[1];
    assert (lower, upper) == Window(v[k], 0, v[v[k].parent].height);
    var newTime := VirtualTime(u1, upper - lower, lower);
    if newTime == lower {
      return Ok(NegInf);
    }
    SetChangeTimeAt(t, k, 0, newTime);
    r := Ok(Finite(0.0));
  }

  /** Any other stretch: both of its changes are redrawn and put in order. */
  method RedrawPair(t: SeedbankTree, k: int, e: int, u1: real, u2: real) returns (r: Result<Double>)
    requires t.Wf() && 0 <= k < |t.nodes|
    requires t.View()[k].parent != -1 && 0 <= e < Stretches(t.View()[k]) && !FromSample(t.View()[k], e)
    modifies t.nodes
    ensures t.Wf()
    ensures var s := Redrawn(old(t.View()), k, e, u1, u2);
      r == s.result && t.View() == s.view
  {
    ghost var v := t.View();
    var nd := t.nodes[k];
    assert nd.Record() == v[k];
    var top := t.nodes[nd.parent].height;
    assert t.nodes[nd.parent].Record() == v[nd.parent];
    ghost var win := Window(v[k], e, top);
    var isDormant := if nd.nodeType == 0 then 1 else 0;
    var baseIdx := e * 2 - isDormant;
    assert baseIdx == Base(v[k], e);
    var lower := if baseIdx == 0 then nd.height else nd.changeTimes[baseIdx - 1];
    var upper := if nd.nTypeChanges == baseIdx + 2 then top else nd.changeTimes[baseIdx + 2];
    assert (lower, upper) == win;
    var newBaseTime := VirtualTime(u1, upper - lower, lower);
    var newEndTime := VirtualTime(u2, upper - lower, lower);
    if newBaseTime == lower || newEndTime == lower || newBaseTime == newEndTime {
      return Ok(NegInf);
    }
    if newBaseTime > newEndTime {
      var temp := newBaseTime;
      newBaseTime := newEndTime;
      newEndTime := temp;
    }
    SetChangeTimeAt(t, k, baseIdx, newBaseTime);
    SetChangeTimeAt(t, k, baseIdx + 1, newEndTime);
    r := Ok(Finite(0.0));
  }
}
