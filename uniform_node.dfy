// UniformNode: one event of the tree is moved. The events are the heights
// of the internal nodes (numbered leafCount, leafCount + 1, ... as in
// BEAST) followed by the type changes on the non-root branches, taken in
// node order. A change, or a non-root internal node, is moved uniformly
// between its neighbouring events; the root is scaled towards the later
// of its children's last changes.
//
// The draws are parameters: `pick` stands for the Randomizer.nextInt draw
// (reduced modulo its bound) and `u` for the Randomizer.nextDouble draw.

module UniformNodes {
  import opened Wrappers
  import opened Doubles
  import opened SeedbankNodes
  import opened SeedbankTrees
  import opened TreeSurgery
  import WilsonBalding
  import PairMoves

  /** Parent and child links agree both ways, no node is its own parent, and no node has more than two children. */
  predicate Linked(v: seq<NodeRec>)
    requires Shaped(v)
  {
    ParentsConsistent(v) &&
    (forall i :: 0 <= i < |v| && v[i].parent != -1 ==> v[i].parent != i && i in v[v[i].parent].children) &&
    (forall i :: 0 <= i < |v| ==> |v[i].children| <= 2)
  }

  /* ---------------------------------------------------------------------
   * Selecting the event.
   */

  /** The event a proposal moves: a node's height, change idx on a node's branch, or none when the walk runs off the nodes. */
  datatype Event = Height(node: int) | Change(node: int, idx: int) | Unfound

  predicate Placed(v: seq<NodeRec>, ev: Event)
    requires Shaped(v)
  {
    match ev
    case Height(k) => 0 <= k < |v|
    case Change(k, i) => 0 <= k < |v| && v[k].parent != -1 && 0 <= i < v[k].changeCount
    case Unfound => true
  }

  /**
   * The walk of proposal() from node `from` on: the root is skipped, a
   * branch with more than e changes is chosen, and otherwise its changes
   * are subtracted from e and the walk goes on.
   */
  function Picked(v: seq<NodeRec>, from: int, e: int): (r: Event)
    requires Shaped(v) && 0 <= from <= |v| && e >= 0
    ensures !r.Height? && Placed(v, r)
    ensures r.Change? ==> from <= r.node
    decreases |v| - from
  {
    if from == |v| then Unfound
    else if v[from].parent == -1 then Picked(v, from + 1, e)
    else if e < v[from].changeCount then Change(from, e)
    else Picked(v, from + 1, e - v[from].changeCount)
  }

  /** The changes above the nodes before i never outnumber those before j >= i. */
  lemma {:induction false} PrefixChangesGrow(v: seq<NodeRec>, i: int, j: int)
    requires Shaped(v) && 0 <= i <= j <= |v|
    ensures ChangesOfNonRoots(v[..i]) <= ChangesOfNonRoots(v[..j])
    decreases j - i
  {
    if i < j {
      PrefixChangesGrow(v, i, j - 1);
      assert v[..j][..j - 1] == v[..j - 1];
    }
  }

  /**
   * The walk numbers the changes consecutively in node order: it stops on
   * a change exactly when e is below the changes still ahead, and the
   * change it stops on is the one with that number.
   */
  lemma {:induction false} PickedNumbering(v: seq<NodeRec>, from: int, e: int)
    requires Shaped(v) && 0 <= from <= |v| && e >= 0
    ensures Picked(v, from, e).Change? <==> e < ChangesOfNonRoots(v) - ChangesOfNonRoots(v[..from])
    ensures var r := Picked(v, from, e);
      r.Change? ==> ChangesOfNonRoots(v[..from]) + e == ChangesOfNonRoots(v[..r.node]) + r.idx
    decreases |v| - from
  {
    if from == |v| {
      assert v[..from] == v;
    } else {
      assert v[..from + 1][..from] == v[..from];
      PrefixChangesGrow(v, from + 1, |v|);
      assert v[..|v|] == v;
      if v[from].parent == -1 {
        PickedNumbering(v, from + 1, e);
      } else if e >= v[from].changeCount {
        PickedNumbering(v, from + 1, e - v[from].changeCount);
      }
    }
  }

  /**
   * The draw of proposal(): Randomizer.nextInt over the internal nodes and
   * the changes, which raises IllegalArgumentException on a bound below 1.
   */
  function EventDraw(v: seq<NodeRec>, leafCount: int, pick: nat): (r: Result<int>)
    ensures r.Ok? ==> 0 <= r.value < |v| - leafCount + ChangesOfNonRoots(v)
    ensures r.Fail? <==> |v| - leafCount + ChangesOfNonRoots(v) <= 0
  {
    var bound := |v| - leafCount + ChangesOfNonRoots(v);
    if bound <= 0 then Fail(IllegalArgument) else Ok(pick % bound)
  }

  /** Where the selection leaves the proposal: finished with a result, or an event to move. */
  datatype Choice = Stop(result: Result<Double>) | Move(event: Event)

  /**
   * The selection of proposal(): an internal node by number, the root
   * refused unless includeRoot; past the internal nodes, the walk over the
   * changes, whose falling through raises IllegalStateException.
   */
  function Selected(v: seq<NodeRec>, leafCount: int, includeRoot: bool, pick: nat): (r: Choice)
    requires Shaped(v) && 0 <= leafCount <= |v|
    ensures r.Move? ==> !r.event.Unfound? && Placed(v, r.event)
  {
    match EventDraw(v, leafCount, pick)
    case Fail(e) => Stop(Fail(e))
    case Ok(event) =>
      var internal := |v| - leafCount;
      if event < internal then
        var k := leafCount + event;
        if !includeRoot && v[k].parent == -1 then Stop(Ok(NegInf)) else Move(Height(k))
      else
        var p := Picked(v, 0, event - internal);
        if p.Change? then Move(p) else Stop(Fail(IllegalState))
  }

  /**
   * The selection never falls through, and a change it selects is the one
   * whose number in node order is the draw less the internal nodes.
   */
  lemma SelectionNeverFallsThrough(v: seq<NodeRec>, leafCount: int, includeRoot: bool, pick: nat)
    requires Shaped(v) && 0 <= leafCount <= |v|
    ensures Selected(v, leafCount, includeRoot, pick) != Stop(Fail(IllegalState))
    ensures var c := Selected(v, leafCount, includeRoot, pick);
      c.Move? && c.event.Change? ==>
        ChangesOfNonRoots(v[..c.event.node]) + c.event.idx == EventDraw(v, leafCount, pick).value - (|v| - leafCount)
  {
    var d := EventDraw(v, leafCount, pick);
    if d.Ok? && d.value >= |v| - leafCount {
      assert v[..0] == [];
      PickedNumbering(v, 0, d.value - (|v| - leafCount));
    }
  }

  /** The walk loop of proposal(): non-root nodes in node order until the change is found. */
  method Walk(t: SeedbankTree, e0: int) returns (ev: Event)
    requires t.Wf() && e0 >= 0
    ensures ev == Picked(t.View(), 0, e0)
  {
    ghost var v := t.View();
    var e := e0;
    var i := 0;
    while i < |t.nodes|
      invariant 0 <= i <= |t.nodes| && e >= 0
      invariant Picked(v, i, e) == Picked(v, 0, e0)
    {
      var n := t.nodes[i];
      assert n.Record() == v[i];
      if n.parent != -1 {
        if e < n.nTypeChanges {
          return Change(i, e);
        }
        e := e - n.nTypeChanges;
      }
      i := i + 1;
    }
    return Unfound;
  }

  /** The draw and the selection; the tree is only read. */
  method Select(t: SeedbankTree, includeRoot: bool, pick: nat) returns (c: Choice)
    requires t.Wf() && 0 <= t.leafNodeCount <= |t.nodes|
    ensures c == Selected(t.View(), t.leafNodeCount, includeRoot, pick)
  {
    ghost var v := t.View();
    var m := GetTotalNumberOfChanges(t.View());
    var internal := |t.nodes| - t.leafNodeCount;
    var bound := internal + m;
    assert EventDraw(v, t.leafNodeCount, pick) == if bound <= 0 then Fail(IllegalArgument) else Ok(pick % bound);
    if bound <= 0 {
      return Stop(Fail(IllegalArgument));
    }
    var event := pick % bound;
    if event < internal {
      var k := t.leafNodeCount + event;
      assert t.nodes[k].parent == v[k].parent;
      if !includeRoot && t.nodes[k].parent == -1 {
        return Stop(Ok(NegInf));
      }
      return Move(Height(k));
    }
    var p := Walk(t, event - internal);
    if p.Change? {
      return Move(p);
    }
    return Stop(Fail(IllegalState));
  }

  /* ---------------------------------------------------------------------
   * Moving the event.
   */

  /** The lowest height an internal node may take: the later of its two children's last changes. */
  function Floor(v: seq<NodeRec>, k: int): real
    requires Shaped(v) && 0 <= k < |v| && |v[k].children| >= 2
  {
    var l := v[v[k].children[0]];
    var r := v[v[k].children[1]];
    WilsonBalding.Max(PrevTime(l.height, l.changeTimes), PrevTime(r.height, r.changeTimes))
  }

  /** The highest height a non-root node may take: its first change, or its parent's height. */
  function Ceiling(v: seq<NodeRec>, k: int): real
    requires Shaped(v) && 0 <= k < |v| && v[k].parent != -1
  {
    if v[k].changeCount > 0 then v[k].changeTimes[0] else v[v[k].parent].height
  }

  /** The neighbours of change i on branch n below a parent at height top: the change (or node) below and the change (or parent) above. */
  function ChangeWindow(n: NodeRec, i: int, top: real): (real, real)
    requires n.Consistent() && 0 <= i < n.changeCount
  {
    (if i - 1 < 0 then n.height else n.changeTimes[i - 1],
     if i + 1 < n.changeCount then n.changeTimes[i + 1] else top)
  }

  /** u * a + (1 - u) * b: a uniform point between a and b for u in [0, 1]. */
  function Between(u: real, a: real, b: real): real
  {
    u * a + (1.0 - u) * b
  }

  /** The root scale factor drawn from u and rootScaleFactor s: u * s + (1 - u) / s. */
  function Factor(u: real, s: real): real
    requires s != 0.0
  {
    u * s + (1.0 - u) / s
  }

  /** The height tmin + f * (h - tmin): the distance above tmin scaled by f. */
  function Stretched(tmin: real, f: real, h: real): real
  {
    tmin + f * (h - tmin)
  }

  /**
   * The move of proposal() on the selected event: the root is scaled above
   * its children's last changes, with log ratio -log f; a non-root node is
   * placed uniformly between its children's last changes and its first
   * change (or its parent); a change uniformly between its neighbours. A
   * node with fewer than two children raises NullPointerException.
   */
  function Moved(v: seq<NodeRec>, ev: Event, scale: real, u: real, ln: real -> real): (r: PairMoves.Edited)
    requires Shaped(v) && Placed(v, ev) && scale != 0.0
    ensures |r.view| == |v| && Shaped(r.view)
    ensures r.result.Fail? ==> r.view == v
  {
    match ev
    case Height(k) =>
      if |v[k].children| < 2 then PairMoves.Edited(Fail(NullPointer), v)
      else if v[k].parent == -1 then
        var f := Factor(u, scale);
        PairMoves.Edited(Ok(Neg(LogOf(ln, f))), HeightIn(v, k, Stretched(Floor(v, k), f, v[k].height)))
      else
        PairMoves.Edited(Ok(Finite(0.0)), HeightIn(v, k, Between(u, Floor(v, k), Ceiling(v, k))))
    case Change(k, i) =>
      var win := ChangeWindow(v[k], i, v[v[k].parent].height);
      PairMoves.Edited(Ok(Finite(0.0)), RetimedIn(v, k, i, Between(u, win.0, win.1)))
    case Unfound => PairMoves.Edited(Fail(IllegalState), v)
  }

  /** UniformNode.proposal: the selection, then the move. */
  function UniformMove(v: seq<NodeRec>, leafCount: int, includeRoot: bool, scale: real, pick: nat, u: real,
                       ln: real -> real): (r: PairMoves.Edited)
    requires Shaped(v) && 0 <= leafCount <= |v| && scale != 0.0
  {
    match Selected(v, leafCount, includeRoot, pick)
    case Stop(res) => PairMoves.Edited(res, v)
    case Move(ev) => Moved(v, ev, scale, u, ln)
  }

  method Proposal(t: SeedbankTree, includeRoot: bool, scale: real, pick: nat, u: real, ln: real -> real)
    returns (r: Result<Double>)
    requires t.Wf() && 0 <= t.leafNodeCount <= |t.nodes| && scale != 0.0
    modifies t.nodes
    ensures t.Wf()
    ensures var s := UniformMove(old(t.View()), old(t.leafNodeCount), includeRoot, scale, pick, u, ln);
      r == s.result && t.View() == s.view
  {
    var c := Select(t, includeRoot, pick);
    if c.Stop? {
      return c.result;
    }
    r := MoveEvent(t, c.event, scale, u, ln);
  }

  /** The move on the tree. */
  method MoveEvent(t: SeedbankTree, ev: Event, scale: real, u: real, ln: real -> real) returns (r: Result<Double>)
    requires t.Wf() && Placed(t.View(), ev) && scale != 0.0
    modifies t.nodes
    ensures t.Wf()
    ensures var s := Moved(old(t.View()), ev, scale, u, ln);
      r == s.result && t.View() == s.view
  {
    ghost var v := t.View();
    match ev {
      case Height(k) =>
        var n := t.nodes[k];
        assert n.Record() == v[k];
        if |n.children| < 2 {
          return Fail(NullPointer);
        }
        var left := t.nodes[n.children[0]];
        var right := t.nodes[n.children[1]];
        assert left.Record() == v[n.children[0]] && right.Record() == v[n.children[1]];
        var tmin := WilsonBalding.Max(left.GetFinalChangeTime(), right.GetFinalChangeTime());
        assert tmin == Floor(v, k);
        if n.parent == -1 {
          var f := Factor(u, scale);
          SetHeightAt(t, k, Stretched(tmin, f, n.height));
          r := Ok(Neg(LogOf(ln, f)));
        } else {
          var tmax;
          if n.nTypeChanges > 0 {
            tmax := n.changeTimes[0];
          } else {
            tmax := t.nodes[n.parent].height;
            assert t.nodes[n.parent].Record() == v[n.parent];
          }
          assert tmax == Ceiling(v, k);
          SetHeightAt(t, k, Between(u, tmin, tmax));
          r := Ok(Finite(0.0));
        }
      case Change(k, i) =>
        var n := t.nodes[k];
        assert n.Record() == v[k];
        var tmax, tmin;
        if i + 1 < n.nTypeChanges {
          tmax := n.changeTimes[i + 1];
        } else {
          tmax := t.nodes[n.parent].height;
          assert t.nodes[n.parent].Record() == v[n.parent];
        }
        if i - 1 < 0 {
          tmin := n.height;
        } else {
          tmin := n.changeTimes[i - 1];
        }
        assert (tmin, tmax) == ChangeWindow(v[k], i, v[v[k].parent].height);
        SetChangeTimeAt(t, k, i, Between(u, tmin, tmax));
        r := Ok(Finite(0.0));
      case Unfound =>
        r := Fail(IllegalState);
    }
  }

  /* ---------------------------------------------------------------------
   * Properties.
   */

  lemma ProductNonNegative(x: real, y: real)
    requires x >= 0.0 && y >= 0.0
    ensures x * y >= 0.0
  {
  }

  /** For u in [0, 1] the point lies between the ends. */
  lemma BetweenWithin(u: real, a: real, b: real)
    requires 0.0 <= u <= 1.0 && a <= b
    ensures a <= Between(u, a, b) <= b
  {
    var d := b - a;
    assert Between(u, a, b) == a + (1.0 - u) * d;
    assert (1.0 - u) * d == d - u * d;
    ProductNonNegative(1.0 - u, d);
    ProductNonNegative(u, d);
  }

  /** For a positive rootScaleFactor and u in [0, 1] the scale factor is positive. */
  lemma FactorPositive(u: real, s: real)
    requires s > 0.0 && 0.0 <= u <= 1.0
    ensures Factor(u, s) > 0.0
  {
    ProductNonNegative(u, s);
    assert (1.0 - u) / s >= 0.0;
    if u == 0.0 {
      assert Factor(u, s) == 1.0 / s;
    } else {
      assert u * s > 0.0;
    }
  }

  /** Scaling by f and then by 1 / f about the same floor gives the height back. */
  lemma StretchInverts(tmin: real, f: real, h: real)
    requires f != 0.0
    ensures Stretched(tmin, 1.0 / f, Stretched(tmin, f, h)) == h
  {
    assert Stretched(tmin, f, h) - tmin == f * (h - tmin);
    assert (1.0 / f) * (f * (h - tmin)) == h - tmin;
  }

  /** Replacing one entry of an ascending sequence by a value between its neighbours keeps it ascending. */
  lemma AscendingReplace(s: seq<real>, j: int, x: real)
    requires Ascending(s) && 0 <= j < |s|
    requires j > 0 ==> s[j - 1] <= x
    requires j < |s| - 1 ==> x <= s[j + 1]
    ensures Ascending(s[j := x])
  {
  }

  /** An ordered branch's last change (or its node) lies no higher than its parent. */
  lemma FinalBelowTop(top: real, n: NodeRec)
    requires BranchTimesOrdered(top, n)
    ensures PrevTime(n.height, n.changeTimes) <= top
    ensures n.height <= top
  {
    var s := [n.height] + n.changeTimes + [top];
    assert s[|s| - 2] == PrevTime(n.height, n.changeTimes);
    AscendingIsSorted(s, 0, |s| - 1);
  }

  /**
   * A new height h for node k keeps every branch ordered when h lies no
   * higher than k's first change (or its parent) and no lower than any
   * child's last change.
   */
  lemma HeightMoveKeepsOrder(v: seq<NodeRec>, k: int, h: real)
    requires Shaped(v) && Linked(v) && AllBranchesOrdered(v) && 0 <= k < |v|
    requires v[k].parent != -1 ==> h <= Ceiling(v, k)
    requires forall j :: 0 <= j < |v[k].children| ==>
      PrevTime(v[v[k].children[j]].height, v[v[k].children[j]].changeTimes) <= h
    ensures AllBranchesOrdered(HeightIn(v, k, h))
  {
    var w := HeightIn(v, k, h);
    forall i | 0 <= i < |w| && w[i].parent != -1
      ensures BranchTimesOrdered(w[w[i].parent].height, w[i])
    {
      var p := v[i].parent;
      var s := [v[i].height] + v[i].changeTimes + [v[p].height];
      assert BranchTimesOrdered(v[p].height, v[i]);
      if i == k {
        assert p != k;
        assert [w[i].height] + w[i].changeTimes + [w[p].height] == s[0 := h];
        AscendingReplace(s, 0, h);
      } else if p == k {
        var j :| 0 <= j < |v[k].children| && v[k].children[j] == i;
        assert s[|s| - 2] == PrevTime(v[i].height, v[i].changeTimes);
        assert [w[i].height] + w[i].changeTimes + [w[p].height] == s[|s| - 1 := h];
        AscendingReplace(s, |s| - 1, h);
      } else {
        assert w[i] == v[i] && w[p] == v[p];
      }
    }
  }

  /** A new time for change idx between its neighbours keeps every branch ordered. */
  lemma ChangeMoveKeepsOrder(v: seq<NodeRec>, k: int, idx: int, x: real)
    requires Shaped(v) && Linked(v) && AllBranchesOrdered(v) && 0 <= k < |v|
    requires v[k].parent != -1 && 0 <= idx < v[k].changeCount
    requires var win := ChangeWindow(v[k], idx, v[v[k].parent].height); win.0 <= x <= win.1
    ensures AllBranchesOrdered(RetimedIn(v, k, idx, x))
  {
    var w := RetimedIn(v, k, idx, x);
    forall i | 0 <= i < |w| && w[i].parent != -1
      ensures BranchTimesOrdered(w[w[i].parent].height, w[i])
    {
      var p := v[i].parent;
      assert w[p].height == v[p].height;
      if i == k {
        var s := [v[k].height] + v[k].changeTimes + [v[p].height];
        assert BranchTimesOrdered(v[p].height, v[k]);
        assert [w[k].height] + w[k].changeTimes + [w[p].height] == s[idx + 1 := x];
        AscendingReplace(s, idx + 1, x);
      } else {
        assert w[i] == v[i];
      }
    }
  }

  /** A move rewrites one height or one change time, so links, types and counts stay as they were. */
  lemma MoveKeepsLinksAndTypes(v: seq<NodeRec>, ev: Event, scale: real, u: real, ln: real -> real)
    requires Shaped(v) && Placed(v, ev) && scale != 0.0
    ensures var w := Moved(v, ev, scale, u, ln).view;
      forall i :: 0 <= i < |v| ==>
        w[i].parent == v[i].parent && w[i].children == v[i].children && w[i].nodeType == v[i].nodeType &&
        w[i].changeTypes == v[i].changeTypes && w[i].changeCount == v[i].changeCount
  {
  }

  /** Two arenas alike in every parent link and change count hold the same number of changes. */
  lemma {:induction false} SameCounts(v: seq<NodeRec>, w: seq<NodeRec>)
    requires |w| == |v|
    requires forall i :: 0 <= i < |v| ==> w[i].parent == v[i].parent && w[i].changeCount == v[i].changeCount
    ensures ChangesOfNonRoots(w) == ChangesOfNonRoots(v)
    decreases |v|
  {
    if |v| > 0 {
      SameCounts(v[..|v| - 1], w[..|w| - 1]);
    }
  }

  /**
   * A move keeps the number of events, so the reverse move is drawn from
   * the same bound.
   */
  lemma MoveKeepsEventCount(v: seq<NodeRec>, ev: Event, scale: real, u: real, ln: real -> real)
    requires Shaped(v) && Placed(v, ev) && scale != 0.0
    ensures var w := Moved(v, ev, scale, u, ln).view;
      |w| == |v| && ChangesOfNonRoots(w) == ChangesOfNonRoots(v)
  {
    MoveKeepsLinksAndTypes(v, ev, scale, u, ln);
    SameCounts(v, Moved(v, ev, scale, u, ln).view);
  }

  /** Rewriting only heights and change times keeps the links and the type agreement. */
  lemma SameLinksAndTypes(v: seq<NodeRec>, w: seq<NodeRec>)
    requires Shaped(v) && Shaped(w) && |w| == |v|
    requires forall i :: 0 <= i < |v| ==>
      w[i].parent == v[i].parent && w[i].children == v[i].children && w[i].nodeType == v[i].nodeType &&
      w[i].changeTypes == v[i].changeTypes
    ensures Linked(w) == Linked(v) && AllTypesMatch(w) == AllTypesMatch(v)
  {
  }

  /** The root move keeps the branches ordered: the scale factor is positive and the floor lies below the root. */
  lemma RootMoveKeepsOrder(v: seq<NodeRec>, k: int, scale: real, u: real)
    requires Shaped(v) && Linked(v) && AllBranchesOrdered(v) && 0 <= k < |v|
    requires v[k].parent == -1 && |v[k].children| >= 2
    requires scale > 0.0 && 0.0 <= u <= 1.0
    ensures AllBranchesOrdered(HeightIn(v, k, Stretched(Floor(v, k), Factor(u, scale), v[k].height)))
  {
    var c0 := v[k].children[0];
    var c1 := v[k].children[1];
    assert v[c0].parent == k && v[c1].parent == k;
    FinalBelowTop(v[k].height, v[c0]);
    FinalBelowTop(v[k].height, v[c1]);
    var tmin := Floor(v, k);
    var f := Factor(u, scale);
    FactorPositive(u, scale);
    ProductNonNegative(f, v[k].height - tmin);
    HeightMoveKeepsOrder(v, k, Stretched(tmin, f, v[k].height));
  }

  /** The non-root height move keeps the branches ordered: the node lands between its floor and its ceiling. */
  lemma InnerMoveKeepsOrder(v: seq<NodeRec>, k: int, u: real)
    requires Shaped(v) && Linked(v) && AllBranchesOrdered(v) && 0 <= k < |v|
    requires v[k].parent != -1 && |v[k].children| >= 2
    requires 0.0 <= u <= 1.0
    ensures AllBranchesOrdered(HeightIn(v, k, Between(u, Floor(v, k), Ceiling(v, k))))
  {
    var c0 := v[k].children[0];
    var c1 := v[k].children[1];
    assert v[c0].parent == k && v[c1].parent == k;
    FinalBelowTop(v[k].height, v[c0]);
    FinalBelowTop(v[k].height, v[c1]);
    var p := v[k].parent;
    var s := [v[k].height] + v[k].changeTimes + [v[p].height];
    assert BranchTimesOrdered(v[p].height, v[k]);
    assert s[0] <= s[1] == Ceiling(v, k);
    BetweenWithin(u, Floor(v, k), Ceiling(v, k));
    HeightMoveKeepsOrder(v, k, Between(u, Floor(v, k), Ceiling(v, k)));
  }

  /** The change move keeps the branches ordered: the change lands between its neighbours. */
  lemma RetimeKeepsOrder(v: seq<NodeRec>, k: int, i: int, u: real)
    requires Shaped(v) && Linked(v) && AllBranchesOrdered(v) && 0 <= k < |v|
    requires v[k].parent != -1 && 0 <= i < v[k].changeCount
    requires 0.0 <= u <= 1.0
    ensures var win := ChangeWindow(v[k], i, v[v[k].parent].height);
      AllBranchesOrdered(RetimedIn(v, k, i, Between(u, win.0, win.1)))
  {
    var p := v[k].parent;
    var win := ChangeWindow(v[k], i, v[p].height);
    var s := [v[k].height] + v[k].changeTimes + [v[p].height];
    assert BranchTimesOrdered(v[p].height, v[k]);
    assert s[i] == win.0 && s[i + 2] == win.1;
    AscendingIsSorted(s, i, i + 2);
    BetweenWithin(u, win.0, win.1);
    ChangeMoveKeepsOrder(v, k, i, Between(u, win.0, win.1));
  }

  /**
   * On a linked tree with ordered, typed branches, every move keeps the
   * branches ordered and typed, when rootScaleFactor is positive and u
   * lies in [0, 1].
   */
  lemma MoveKeepsValidity(v: seq<NodeRec>, ev: Event, scale: real, u: real, ln: real -> real)
    requires Shaped(v) && Placed(v, ev) && Linked(v) && AllBranchesOrdered(v) && AllTypesMatch(v)
    requires scale > 0.0 && 0.0 <= u <= 1.0
    ensures var w := Moved(v, ev, scale, u, ln).view;
      Linked(w) && AllBranchesOrdered(w) && AllTypesMatch(w)
  {
    var w := Moved(v, ev, scale, u, ln).view;
    MoveKeepsLinksAndTypes(v, ev, scale, u, ln);
    SameLinksAndTypes(v, w);
    match ev
    case Height(k) =>
      if |v[k].children| >= 2 {
        if v[k].parent == -1 {
          RootMoveKeepsOrder(v, k, scale, u);
        } else {
          InnerMoveKeepsOrder(v, k, u);
        }
      }
    case Change(k, i) =>
      RetimeKeepsOrder(v, k, i, u);
    case Unfound =>
  }

  /** UniformNode keeps a linked tree with ordered, typed branches so. */
  lemma UniformMoveKeepsValidity(v: seq<NodeRec>, leafCount: int, includeRoot: bool, scale: real, pick: nat, u: real,
                                 ln: real -> real)
    requires Shaped(v) && 0 <= leafCount <= |v| && Linked(v) && AllBranchesOrdered(v) && AllTypesMatch(v)
    requires scale > 0.0 && 0.0 <= u <= 1.0
    ensures var w := UniformMove(v, leafCount, includeRoot, scale, pick, u, ln).view;
      Shaped(w) && Linked(w) && AllBranchesOrdered(w) && AllTypesMatch(w)
  {
    var c := Selected(v, leafCount, includeRoot, pick);
    if c.Move? {
      MoveKeepsValidity(v, c.event, scale, u, ln);
    }
  }

  /**
   * A change move leaves the change's neighbours where they were, so the
   * reverse move draws from the same interval: the proposal is symmetric.
   */
  lemma ChangeMoveKeepsWindow(v: seq<NodeRec>, k: int, i: int, u: real)
    requires Shaped(v) && Linked(v) && 0 <= k < |v| && v[k].parent != -1 && 0 <= i < v[k].changeCount
    ensures var win := ChangeWindow(v[k], i, v[v[k].parent].height);
      var w := RetimedIn(v, k, i, Between(u, win.0, win.1));
      w[k].parent == v[k].parent && ChangeWindow(w[k], i, w[w[k].parent].height) == win &&
      w[k].changeTimes[i] == Between(u, win.0, win.1)
  {
  }

  /**
   * A non-root height move leaves the node's children and first change (or
   * parent) where they were, so the reverse move draws from the same
   * interval: the proposal is symmetric.
   */
  lemma HeightMoveKeepsWindow(v: seq<NodeRec>, k: int, u: real)
    requires Shaped(v) && Linked(v) && 0 <= k < |v| && v[k].parent != -1 && |v[k].children| >= 2
    ensures var w := HeightIn(v, k, Between(u, Floor(v, k), Ceiling(v, k)));
      w[k].children == v[k].children && w[k].parent == v[k].parent &&
      Floor(w, k) == Floor(v, k) && Ceiling(w, k) == Ceiling(v, k)
  {
    var c0 := v[k].children[0];
    var c1 := v[k].children[1];
    assert v[c0].parent == k && v[c1].parent == k;
  }

  /**
   * A root move with factor f is undone by the root move with factor 1 / f:
   * the floor stays, and the height comes back.
   */
  lemma RootMoveInverts(v: seq<NodeRec>, k: int, f: real)
    requires Shaped(v) && Linked(v) && 0 <= k < |v| && v[k].parent == -1 && |v[k].children| >= 2
    requires f != 0.0
    ensures var w := HeightIn(v, k, Stretched(Floor(v, k), f, v[k].height));
      |w[k].children| >= 2 && Floor(w, k) == Floor(v, k) &&
      HeightIn(w, k, Stretched(Floor(w, k), 1.0 / f, w[k].height)) == v
  {
    var c0 := v[k].children[0];
    var c1 := v[k].children[1];
    assert v[c0].parent == k && v[c1].parent == k;
    StretchInverts(Floor(v, k), f, v[k].height);
    var w := HeightIn(v, k, Stretched(Floor(v, k), f, v[k].height));
    assert HeightIn(w, k, Stretched(Floor(w, k), 1.0 / f, w[k].height)) == v;
  }
}
