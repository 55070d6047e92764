// NodeShiftRetype: one internal node gets a new height and the branches
// whose length that changes (its own, unless it is the root, and its two
// children's) are retyped. A non-root node moves uniformly between its
// older child and its parent; the root's height above its older child is
// multiplied by f = u s + (1 - u)/s for the root scale factor s. The log
// Hastings ratio is the log probability of the old paths less that of the
// new ones (less log f at the root).
//
// The draws are parameters: `picks` for the Randomizer.nextInt draws of the
// selection loop (each taken modulo its bound), `u` for the height draw and
// one Attempt per retyped branch.

module NodeShiftRetypes {
  import opened Wrappers
  import opened Doubles
  import opened SeedbankNodes
  import opened SeedbankTrees
  import opened TreeSurgery
  import opened Retype
  import opened RetypeMoves

  /** initAndValidate: rootOnly and noRoot together are refused. */
  function InitCheck(rootOnly: bool, noRoot: bool): (r: Outcome)
    ensures r == Done <==> !(rootOnly && noRoot)
    ensures r != Done ==> r == Failed(IllegalArgument)
  {
    if rootOnly && noRoot then Failed(IllegalArgument) else Done
  }

  /**
   * initAndValidate refuses exactly the flag pairs that no selected node
   * could honour: when it passes, the node proposal() works on is the
   * root under rootOnly and is not the root under noRoot; when both flags
   * are set, the root is selected although noRoot forbids it.
   */
  lemma CheckedFlagsAreHonoured(v: seq<NodeRec>, root: int, leafCount: int, rootOnly: bool, noRoot: bool,
                                picks: seq<nat>)
    requires Shaped(v) && 0 <= root < |v| && 0 <= leafCount <= |v| && v[root].parent == -1
    ensures InitCheck(rootOnly, noRoot) == Done <==>
      (Target(v, root, leafCount, rootOnly, noRoot, picks).Ok? ==>
        var k := Target(v, root, leafCount, rootOnly, noRoot, picks).value;
        (rootOnly ==> k == root) && (noRoot ==> v[k].parent != -1))
  {
  }

  /* ---------------------------------------------------------------------
   * Selecting the node.
   */

  /** The node a draw names: leafCount + (pick mod internal). */
  function Slot(v: seq<NodeRec>, leafCount: int, pick: nat): (k: int)
    requires 0 <= leafCount < |v|
    ensures leafCount <= k < |v|
  {
    leafCount + pick % (|v| - leafCount)
  }

  /** A draw the do-while rejects: noRoot holds and the draw names the root. */
  predicate Redrawn(v: seq<NodeRec>, leafCount: int, noRoot: bool, pick: nat)
    requires Shaped(v) && 0 <= leafCount < |v|
  {
    noRoot && v[Slot(v, leafCount, pick)].parent == -1
  }

  /**
   * The do-while of proposal(): the node each draw names, again while the
   * draw is rejected. Randomizer.nextInt(0) throws when there are no
   * internal nodes.
   */
  function Drawn(v: seq<NodeRec>, leafCount: int, noRoot: bool, picks: seq<nat>): (r: Result<int>)
    requires Shaped(v) && 0 <= leafCount <= |v|
    ensures r.Ok? ==> leafCount <= r.value < |v| && (noRoot ==> v[r.value].parent != -1)
    ensures r.Fail? <==>
      (leafCount == |v| || forall k :: 0 <= k < |picks| ==> Redrawn(v, leafCount, noRoot, picks[k]))
    ensures r.Fail? ==> r.error == (if leafCount == |v| then IllegalArgument else DrawsExhausted)
    ensures r.Ok? && !Redrawn(v, leafCount, noRoot, picks[0]) ==> r.value == Slot(v, leafCount, picks[0])
    decreases |picks|
  {
    if leafCount == |v| then Fail(IllegalArgument)
    else if |picks| == 0 then Fail(DrawsExhausted)
    else if Redrawn(v, leafCount, noRoot, picks[0]) then
      var rest := Drawn(v, leafCount, noRoot, picks[1..]);
      assert forall j :: 0 <= j < |picks| - 1 ==> picks[1..][j] == picks[j + 1];
      rest
    else Ok(Slot(v, leafCount, picks[0]))
  }

  /** The node proposal() works on: the root when rootOnly is set, a drawn internal node otherwise. */
  function Target(v: seq<NodeRec>, root: int, leafCount: int, rootOnly: bool, noRoot: bool, picks: seq<nat>): (r: Result<int>)
    requires Shaped(v) && 0 <= root < |v| && 0 <= leafCount <= |v|
    ensures rootOnly ==> r == Ok(root)
    ensures !rootOnly && r.Ok? ==> leafCount <= r.value < |v| && (noRoot ==> v[r.value].parent != -1)
  {
    if rootOnly then Ok(root) else Drawn(v, leafCount, noRoot, picks)
  }

  method SelectNode(t: SeedbankTree, rootOnly: bool, noRoot: bool, picks: seq<nat>) returns (r: Result<int>)
    requires t.Wf() && 0 <= t.leafNodeCount <= |t.nodes|
    ensures r == Target(t.View(), t.root, t.leafNodeCount, rootOnly, noRoot, picks)
  {
    if rootOnly {
      return Ok(t.root);
    }
    var internal := |t.nodes| - t.leafNodeCount;
    if internal == 0 {
      return Fail(IllegalArgument);
    }
    var i := 0;
    while i < |picks|
      invariant 0 <= i <= |picks|
      invariant Drawn(t.View(), t.leafNodeCount, noRoot, picks) == Drawn(t.View(), t.leafNodeCount, noRoot, picks[i..])
      decreases |picks| - i
    {
      var k := t.leafNodeCount + picks[i] % internal;
      assert picks[i..][0] == picks[i] && picks[i..][1..] == picks[i + 1..];
      assert k == Slot(t.View(), t.leafNodeCount, picks[i]);
      assert t.View()[k] == t.nodes[k].Record();
      if !(noRoot && t.nodes[k].parent == -1) {
        return Ok(k);
      }
      i := i + 1;
    }
    return Fail(DrawsExhausted);
  }

  /* ---------------------------------------------------------------------
   * The two proposals.
   */

  /** Both children of node, or none when getLeft or getRight is null. */
  function Children(v: seq<NodeRec>, node: int): (r: Option<(int, int)>)
    requires Shaped(v) && 0 <= node < |v|
    ensures r.Some? ==> 0 <= r.value.0 < |v| && 0 <= r.value.1 < |v|
  {
    var l := GetLeft(v[node].children);
    var r := GetRight(v[node].children);
    if l == -1 || r == -1 then None else Some((l, r))
  }

  /** f = u s + (1 - u)/s. */
  function RootFactor(u: real, s: real): real
    requires s != 0.0
  {
    u * s + (1.0 - u) / s
  }

  /** The later of the two children's heights. */
  function Oldest(v: seq<NodeRec>, l: int, r: int): real
    requires 0 <= l < |v| && 0 <= r < |v|
  {
    if v[l].height >= v[r].height then v[l].height else v[r].height
  }

  /** The root's new height: its height above the older child scaled by f. */
  function RootHeight(v: seq<NodeRec>, root: int, l: int, r: int, f: real): real
    requires 0 <= root < |v| && 0 <= l < |v| && 0 <= r < |v|
  {
    Oldest(v, l, r) + f * (v[root].height - Oldest(v, l, r))
  }

  /** A non-root node's new height: uniform between its older child and its parent. */
  function ShiftHeight(v: seq<NodeRec>, node: int, l: int, r: int, u: real): real
    requires Shaped(v) && 0 <= node < |v| && 0 <= l < |v| && 0 <= r < |v| && v[node].parent != -1
  {
    Oldest(v, l, r) + (v[v[node].parent].height - Oldest(v, l, r)) * u
  }

  /** recalculateLambda on x and then y, after a move that did not throw. */
  function Recalculated(m: Move, x: int, y: int): (r: Move)
    requires Shaped(m.view) && 0 <= x < |m.view| && 0 <= y < |m.view| && FitsOpt(m.params, m.view)
    ensures r.result == m.result && r.view == m.view && FitsOpt(r.params, r.view)
  {
    if m.result.Fail? then m else Move(m.result, m.view, RecalcOpt(RecalcOpt(m.params, m.view, x), m.view, y))
  }

  /**
   * What a proposal fixes before it moves anything: the two children, the
   * log ratio so far and the new height.
   */
  datatype Plan = Plan(l: int, rt: int, before: Double, height: real)

  /**
   * The first half of rootProposal: the children's probabilities, then
   * f and the root's new height, and -log f. A missing child throws
   * NullPointerException in getBranchTypeProb.
   */
  function RootPlan(v: seq<NodeRec>, ch: Chain, ln: real -> real, expm: (real, int, int) -> real, root: int,
                    s: real, u: real): (r: Result<Plan>)
    requires Shaped(v) && 0 <= root < |v| && s != 0.0
    ensures r.Ok? ==> Children(v, root) == Some((r.value.l, r.value.rt))
    ensures r.Fail? ==> r.error == NullPointer
  {
    match Children(v, root)
    case None => Fail(NullPointer)
    case Some((l, rt)) =>
      match Before2(v, ch, ln, expm, l, rt)
      case Fail(e) => Fail(e)
      case Ok(before) =>
        var f := RootFactor(u, s);
        Ok(Plan(l, rt, Sub(before, LogOf(ln, f)), RootHeight(v, root, l, rt, f)))
  }

  /**
   * rootProposal: the plan; the root moved to its new height; both
   * children retyped; recalculateLambda once more on both. An exception in
   * a retype ends the move with the tree as it stands.
   */
  function RootShifted(v: seq<NodeRec>, ind: Option<Indicators>, ch: Chain, ln: real -> real,
                       expm: (real, int, int) -> real, root: int, s: real, u: real, a1: Attempt, a2: Attempt): (r: Move)
    requires Shaped(v) && 0 <= root < |v| && FitsOpt(ind, v) && s != 0.0
    ensures Shaped(r.view) && |r.view| == |v| && FitsOpt(r.params, r.view)
  {
    match RootPlan(v, ch, ln, expm, root, s, u)
    case Fail(e) => Move(Fail(e), v, ind)
    case Ok(p) =>
      var w := HeightIn(v, root, p.height);
      Recalculated(Finish(Retyped2(w, ind, ch, ln, expm, p.l, p.rt, a1, a2), p.before), p.l, p.rt)
  }

  /**
   * The first half of nonRootProposal: the probabilities of node's branch
   * and its children's, then node's new height, uniform between its older
   * child and its parent.
   */
  function NonRootPlan(v: seq<NodeRec>, ch: Chain, ln: real -> real, expm: (real, int, int) -> real, node: int,
                       u: real): (r: Result<Plan>)
    requires Shaped(v) && 0 <= node < |v| && v[node].parent != -1
    ensures r.Ok? ==> Children(v, node) == Some((r.value.l, r.value.rt))
    ensures r.Fail? ==> r.error == NullPointer
  {
    match Children(v, node)
    case None => Fail(NullPointer)
    case Some((l, rt)) =>
      match Before3(v, ch, ln, expm, node, l, rt)
      case Fail(e) => Fail(e)
      case Ok(before) => Ok(Plan(l, rt, before, ShiftHeight(v, node, l, rt, u)))
  }

  /** nonRootProposal: the plan; node moved to its new height; the three branches retyped. */
  function NonRootShifted(v: seq<NodeRec>, ind: Option<Indicators>, ch: Chain, ln: real -> real,
                          expm: (real, int, int) -> real, node: int, u: real, a1: Attempt, a2: Attempt, a3: Attempt): (r: Move)
    requires Shaped(v) && 0 <= node < |v| && FitsOpt(ind, v) && v[node].parent != -1
    ensures Shaped(r.view) && |r.view| == |v| && FitsOpt(r.params, r.view)
  {
    match NonRootPlan(v, ch, ln, expm, node, u)
    case Fail(e) => Move(Fail(e), v, ind)
    case Ok(p) =>
      var w := HeightIn(v, node, p.height);
      Finish(Retyped3(w, ind, ch, ln, expm, node, p.l, p.rt, a1, a2, a3), p.before)
  }

  /**
   * The non-root move's log Hastings ratio: when it is finite, it is the
   * log probability of the three branches' paths before the move less
   * that after it.
   */
  lemma NonRootShiftedRatio(v: seq<NodeRec>, ind: Option<Indicators>, ch: Chain, ln: real -> real,
                            expm: (real, int, int) -> real, node: int, u: real, a1: Attempt, a2: Attempt, a3: Attempt,
                            l: int, rt: int)
    requires Shaped(v) && 0 <= node < |v| && FitsOpt(ind, v) && v[node].parent != -1
    requires Children(v, node) == Some((l, rt)) && node != l && node != rt && l != rt
    ensures var r := NonRootShifted(v, ind, ch, ln, expm, node, u, a1, a2, a3);
      r.result.Ok? && r.result.value.Finite? ==>
        Before3(v, ch, ln, expm, node, l, rt).Ok? && Before3(r.view, ch, ln, expm, node, l, rt).Ok? &&
        r.result.value == Sub(Before3(v, ch, ln, expm, node, l, rt).value, Before3(r.view, ch, ln, expm, node, l, rt).value)
  {
    var r := NonRootShifted(v, ind, ch, ln, expm, node, u, a1, a2, a3);
    var b := Before3(v, ch, ln, expm, node, l, rt);
    if b.Ok? {
      var w := HeightIn(v, node, ShiftHeight(v, node, l, rt, u));
      var m := Retyped3(w, ind, ch, ln, expm, node, l, rt, a1, a2, a3);
      Retyped3Sum(w, ind, ch, ln, expm, node, l, rt, a1, a2, a3);
      if m.result.Ok? {
        assert r.result == Ok(Sub(b.value, m.result.value)) && r.view == m.view;
        if r.result.value.Finite? {
          SubFinite(b.value, m.result.value);
        }
      } else {
        assert r == m;
      }
    } else {
      assert r.result.Fail?;
    }
  }

  /**
   * The root move's log Hastings ratio: when it is finite, it is the log
   * probability of the children's paths before the move, less log f, less
   * that after it.
   */
  lemma RootShiftedRatio(v: seq<NodeRec>, ind: Option<Indicators>, ch: Chain, ln: real -> real,
                         expm: (real, int, int) -> real, root: int, s: real, u: real, a1: Attempt, a2: Attempt,
                         l: int, rt: int)
    requires Shaped(v) && 0 <= root < |v| && FitsOpt(ind, v) && s != 0.0
    requires Children(v, root) == Some((l, rt)) && l != rt
    ensures var r := RootShifted(v, ind, ch, ln, expm, root, s, u, a1, a2);
      r.result.Ok? && r.result.value.Finite? ==>
        Before2(v, ch, ln, expm, l, rt).Ok? && Before2(r.view, ch, ln, expm, l, rt).Ok? &&
        r.result.value == Sub(Sub(Before2(v, ch, ln, expm, l, rt).value, LogOf(ln, RootFactor(u, s))),
                              Before2(r.view, ch, ln, expm, l, rt).value)
  {
    var r := RootShifted(v, ind, ch, ln, expm, root, s, u, a1, a2);
    var b := Before2(v, ch, ln, expm, l, rt);
    if b.Ok? {
      var w := HeightIn(v, root, RootHeight(v, root, l, rt, RootFactor(u, s)));
      var m := Retyped2(w, ind, ch, ln, expm, l, rt, a1, a2);
      Retyped2Sum(w, ind, ch, ln, expm, l, rt, a1, a2);
      if m.result.Ok? {
        var x := Sub(b.value, LogOf(ln, RootFactor(u, s)));
        assert r.result == Ok(Sub(x, m.result.value)) && r.view == m.view;
        if r.result.value.Finite? {
          SubFinite(x, m.result.value);
        }
      } else {
        assert r == m;
      }
    } else {
      assert r.result.Fail?;
    }
  }

  /**
   * The non-root move changes node's height and the change lists of node
   * and its children, and nothing else.
   */
  lemma NonRootShiftedIsLocal(v: seq<NodeRec>, ind: Option<Indicators>, ch: Chain, ln: real -> real,
                              expm: (real, int, int) -> real, node: int, u: real, a1: Attempt, a2: Attempt, a3: Attempt)
    requires Shaped(v) && 0 <= node < |v| && FitsOpt(ind, v) && v[node].parent != -1
    ensures var r := NonRootShifted(v, ind, ch, ln, expm, node, u, a1, a2, a3);
      r.view == v ||
      (Children(v, node).Some? && Framed(HeightIn(v, node, ShiftHeight(v, node, Children(v, node).value.0, Children(v, node).value.1, u)), r.view) &&
       forall i :: 0 <= i < |v| && i != node && i != Children(v, node).value.0 && i != Children(v, node).value.1 ==>
         r.view[i] == v[i])
  {
    var r := NonRootShifted(v, ind, ch, ln, expm, node, u, a1, a2, a3);
    if Children(v, node).Some? {
      var (l, rt) := Children(v, node).value;
      if Before3(v, ch, ln, expm, node, l, rt).Ok? {
        var w := HeightIn(v, node, ShiftHeight(v, node, l, rt, u));
        var m3 := Retyped3(w, ind, ch, ln, expm, node, l, rt, a1, a2, a3);
        LongerChainIsLocal(w, ind, ch, ln, expm, node, l, rt, a1, a2, a3);
        assert r.view == m3.view;
      } else {
        assert r.view == v;
      }
    } else {
      assert r.view == v;
    }
  }

  /**
   * The root move changes the root's height and its children's change
   * lists, and nothing else.
   */
  lemma RootShiftedIsLocal(v: seq<NodeRec>, ind: Option<Indicators>, ch: Chain, ln: real -> real,
                           expm: (real, int, int) -> real, root: int, s: real, u: real, a1: Attempt, a2: Attempt)
    requires Shaped(v) && 0 <= root < |v| && FitsOpt(ind, v) && s != 0.0
    ensures var r := RootShifted(v, ind, ch, ln, expm, root, s, u, a1, a2);
      r.view == v ||
      (Children(v, root).Some? &&
       Framed(HeightIn(v, root, RootHeight(v, root, Children(v, root).value.0, Children(v, root).value.1, RootFactor(u, s))), r.view) &&
       forall i :: 0 <= i < |v| && i != Children(v, root).value.0 && i != Children(v, root).value.1 ==>
         r.view[i] == HeightIn(v, root, RootHeight(v, root, Children(v, root).value.0, Children(v, root).value.1, RootFactor(u, s)))[i])
  {
    var r := RootShifted(v, ind, ch, ln, expm, root, s, u, a1, a2);
    if Children(v, root).Some? {
      var (l, rt) := Children(v, root).value;
      if Before2(v, ch, ln, expm, l, rt).Ok? {
        var w := HeightIn(v, root, RootHeight(v, root, l, rt, RootFactor(u, s)));
        var m2 := Retyped2(w, ind, ch, ln, expm, l, rt, a1, a2);
        ChainIsLocal(w, ind, ch, ln, expm, l, rt, a1, a2);
        assert r.view == m2.view;
      } else {
        assert r.view == v;
      }
    } else {
      assert r.view == v;
    }
  }

  /** A draw u in [0, 1] puts the node between its older child and its parent. */
  lemma ShiftHeightWithin(v: seq<NodeRec>, node: int, l: int, r: int, u: real)
    requires Shaped(v) && 0 <= node < |v| && 0 <= l < |v| && 0 <= r < |v| && v[node].parent != -1
    requires 0.0 <= u <= 1.0 && Oldest(v, l, r) <= v[v[node].parent].height
    ensures Oldest(v, l, r) <= ShiftHeight(v, node, l, r, u) <= v[v[node].parent].height
    ensures v[l].height <= ShiftHeight(v, node, l, r, u) && v[r].height <= ShiftHeight(v, node, l, r, u)
  {
    var g := v[v[node].parent].height - Oldest(v, l, r);
    ScaledBelow(g, u);
    assert ShiftHeight(v, node, l, r, u) == Oldest(v, l, r) + g * u;
  }

  lemma ScaledBelow(g: real, u: real)
    requires g >= 0.0 && 0.0 <= u <= 1.0
    ensures 0.0 <= g * u <= g
  {
    ProductNonNegative(g, u);
    ProductNonNegative(g, 1.0 - u);
    assert g * (1.0 - u) == g - g * u;
  }

  lemma ProductNonNegative(x: real, y: real)
    requires x >= 0.0 && y >= 0.0
    ensures x * y >= 0.0
  {
  }

  /** For a positive scale factor and u in [0, 1], f is positive, so the root stays above its older child. */
  lemma RootStaysAbove(v: seq<NodeRec>, root: int, l: int, r: int, u: real, s: real)
    requires 0 <= root < |v| && 0 <= l < |v| && 0 <= r < |v| && s > 0.0 && 0.0 <= u <= 1.0
    requires v[root].height > Oldest(v, l, r)
    ensures RootFactor(u, s) > 0.0
    ensures RootHeight(v, root, l, r, RootFactor(u, s)) > Oldest(v, l, r)
  {
    var f := RootFactor(u, s);
    ProductNonNegative(u, s);
    assert (1.0 - u) / s >= 0.0;
    if u == 0.0 {
      assert f == 1.0 / s;
    } else {
      assert u * s > 0.0;
    }
    var gap := v[root].height - Oldest(v, l, r);
    assert f * gap > 0.0;
  }

  /** proposal(): the node from the selection, then the root or the non-root proposal. */
  function Shifted(v: seq<NodeRec>, ind: Option<Indicators>, ch: Chain, ln: real -> real, expm: (real, int, int) -> real,
                   root: int, leafCount: int, rootOnly: bool, noRoot: bool, s: real, picks: seq<nat>, u: real,
                   a1: Attempt, a2: Attempt, a3: Attempt): (r: Move)
    requires Shaped(v) && 0 <= root < |v| && 0 <= leafCount <= |v| && FitsOpt(ind, v) && s != 0.0
    ensures Shaped(r.view) && |r.view| == |v| && FitsOpt(r.params, r.view)
  {
    match Target(v, root, leafCount, rootOnly, noRoot, picks)
    case Fail(e) => Move(Fail(e), v, ind)
    case Ok(node) =>
      if v[node].parent == -1 then RootShifted(v, ind, ch, ln, expm, node, s, u, a1, a2)
      else NonRootShifted(v, ind, ch, ln, expm, node, u, a1, a2, a3)
  }

  /* ---------------------------------------------------------------------
   * The proposals on the tree.
   */

  /** The first half of rootProposal on the tree, before anything is moved. */
  method PlanRoot(t: SeedbankTree, ch: Chain, ln: real -> real, expm: (real, int, int) -> real, root: int,
                  s: real, u: real) returns (p: Result<Plan>)
    requires t.Wf() && 0 <= root < |t.nodes| && s != 0.0
    ensures p == RootPlan(t.View(), ch, ln, expm, root, s, u)
  {
    var n := t.nodes[root];
    assert t.View()[root] == n.Record();
    var l := GetLeft(n.children);
    var rt := GetRight(n.children);
    if l == -1 || rt == -1 {
      return Fail(NullPointer);
    }
    assert t.View()[l] == t.nodes[l].Record() && t.View()[rt] == t.nodes[rt].Record();
    var f := u * s + (1.0 - u) / s;
    var oldest := if t.nodes[l].height >= t.nodes[rt].height then t.nodes[l].height else t.nodes[rt].height;
    var height := oldest + f * (n.height - oldest);
    assert height == RootHeight(t.View(), root, l, rt, RootFactor(u, s));
    var before := ProbOfTwo(t, ch, ln, expm, l, rt);
    if before.Fail? {
      return Fail(before.error);
    }
    p := Ok(Plan(l, rt, Sub(before.value, LogOf(ln, f)), height));
  }

  /** The first half of nonRootProposal on the tree, before anything is moved. */
  method PlanNonRoot(t: SeedbankTree, ch: Chain, ln: real -> real, expm: (real, int, int) -> real, node: int, u: real)
    returns (p: Result<Plan>)
    requires t.Wf() && 0 <= node < |t.nodes| && t.View()[node].parent != -1
    ensures p == NonRootPlan(t.View(), ch, ln, expm, node, u)
  {
    var n := t.nodes[node];
    assert t.View()[node] == n.Record();
    var l := GetLeft(n.children);
    var rt := GetRight(n.children);
    if l == -1 || rt == -1 {
      return Fail(NullPointer);
    }
    assert t.View()[n.parent] == t.nodes[n.parent].Record();
    assert t.View()[l] == t.nodes[l].Record() && t.View()[rt] == t.nodes[rt].Record();
    var upper := t.nodes[n.parent].height;
    var lower := if t.nodes[l].height >= t.nodes[rt].height then t.nodes[l].height else t.nodes[rt].height;
    var height := lower + (upper - lower) * u;
    assert height == ShiftHeight(t.View(), node, l, rt, u);
    var before := ProbOfThree(t, ch, ln, expm, node, l, rt);
    if before.Fail? {
      return Fail(before.error);
    }
    p := Ok(Plan(l, rt, before.value, height));
  }

  /** setHeight(node, h) and then the three retypes, on the tree. */
  method MoveAndRetypeThree(t: SeedbankTree, lambdas: array?<Double>, etas: array?<int>, ch: Chain, ln: real -> real,
                            expm: (real, int, int) -> real, node: int, h: real, logHR: Double, l: int, rt: int,
                            a1: Attempt, a2: Attempt, a3: Attempt) returns (r: Result<Double>)
    requires t.Wf() && 0 <= node < |t.nodes| && 0 <= l < |t.nodes| && 0 <= rt < |t.nodes|
    requires lambdas != null ==> lambdas.Length == |t.nodes|
    requires etas != null ==> etas.Length == |t.nodes|
    modifies t.nodes, lambdas, etas
    ensures t.Wf()
    ensures Move(r, t.View(), ParamsOf(lambdas, etas)) ==
      Finish(Retyped3(HeightIn(old(t.View()), node, h), old(ParamsOf(lambdas, etas)), ch, ln, expm, node, l, rt, a1, a2, a3),
             logHR)
  {
    SetHeightAt(t, node, h);
    var acc := RetypeThree(t, lambdas, etas, ch, ln, expm, node, l, rt, a1, a2, a3);
    r := if acc.Fail? then acc else Ok(Sub(logHR, acc.value));
  }

  /** setHeight(root, h), the two retypes and the two recalculateLambda calls, on the tree. */
  method MoveAndRetypeTwo(t: SeedbankTree, lambdas: array?<Double>, etas: array?<int>, ch: Chain, ln: real -> real,
                          expm: (real, int, int) -> real, root: int, h: real, logHR: Double, l: int, rt: int,
                          a1: Attempt, a2: Attempt) returns (r: Result<Double>)
    requires t.Wf() && 0 <= root < |t.nodes| && 0 <= l < |t.nodes| && 0 <= rt < |t.nodes|
    requires lambdas != null ==> lambdas.Length == |t.nodes|
    requires etas != null ==> etas.Length == |t.nodes|
    modifies t.nodes, lambdas, etas
    ensures t.Wf()
    ensures Move(r, t.View(), ParamsOf(lambdas, etas)) ==
      Recalculated(Finish(Retyped2(HeightIn(old(t.View()), root, h), old(ParamsOf(lambdas, etas)), ch, ln, expm, l, rt,
                                   a1, a2), logHR), l, rt)
  {
    SetHeightAt(t, root, h);
    var acc := RetypeTwo(t, lambdas, etas, ch, ln, expm, l, rt, a1, a2);
    if acc.Fail? {
      return acc;
    }
    RecalculateLambda(t, lambdas, etas, l);
    RecalculateLambda(t, lambdas, etas, rt);
    r := Ok(Sub(logHR, acc.value));
  }

  /** nonRootProposal on the tree, as NonRootShifted states it. */
  method NonRootProposal(t: SeedbankTree, lambdas: array?<Double>, etas: array?<int>, ch: Chain, ln: real -> real,
                         expm: (real, int, int) -> real, node: int, u: real, a1: Attempt, a2: Attempt, a3: Attempt)
    returns (r: Result<Double>)
    requires t.Wf() && 0 <= node < |t.nodes| && t.View()[node].parent != -1
    requires lambdas != null ==> lambdas.Length == |t.nodes|
    requires etas != null ==> etas.Length == |t.nodes|
    modifies t.nodes, lambdas, etas
    ensures t.Wf()
    ensures Move(r, t.View(), ParamsOf(lambdas, etas)) ==
      NonRootShifted(old(t.View()), old(ParamsOf(lambdas, etas)), ch, ln, expm, node, u, a1, a2, a3)
  {
    var p := PlanNonRoot(t, ch, ln, expm, node, u);
    if p.Fail? {
      return Fail(p.error);
    }
    r := MoveAndRetypeThree(t, lambdas, etas, ch, ln, expm, node, p.value.height, p.value.before, p.value.l, p.value.rt,
                            a1, a2, a3);
  }

  /** rootProposal on the tree, as RootShifted states it. */
  method RootProposal(t: SeedbankTree, lambdas: array?<Double>, etas: array?<int>, ch: Chain, ln: real -> real,
                      expm: (real, int, int) -> real, root: int, s: real, u: real, a1: Attempt, a2: Attempt)
    returns (r: Result<Double>)
    requires t.Wf() && 0 <= root < |t.nodes| && s != 0.0
    requires lambdas != null ==> lambdas.Length == |t.nodes|
    requires etas != null ==> etas.Length == |t.nodes|
    modifies t.nodes, lambdas, etas
    ensures t.Wf()
    ensures Move(r, t.View(), ParamsOf(lambdas, etas)) ==
      RootShifted(old(t.View()), old(ParamsOf(lambdas, etas)), ch, ln, expm, root, s, u, a1, a2)
  {
    var p := PlanRoot(t, ch, ln, expm, root, s, u);
    if p.Fail? {
      return Fail(p.error);
    }
    r := MoveAndRetypeTwo(t, lambdas, etas, ch, ln, expm, root, p.value.height, p.value.before, p.value.l, p.value.rt,
                          a1, a2);
  }

  /** proposal() on the tree, as Shifted states it. */
  method Proposal(t: SeedbankTree, lambdas: array?<Double>, etas: array?<int>, ch: Chain, ln: real -> real,
                  expm: (real, int, int) -> real, rootOnly: bool, noRoot: bool, s: real, picks: seq<nat>, u: real,
                  a1: Attempt, a2: Attempt, a3: Attempt) returns (r: Result<Double>)
    requires t.Wf() && 0 <= t.leafNodeCount <= |t.nodes| && s != 0.0
    requires lambdas != null ==> lambdas.Length == |t.nodes|
    requires etas != null ==> etas.Length == |t.nodes|
    modifies t.nodes, lambdas, etas
    ensures t.Wf()
    ensures Move(r, t.View(), ParamsOf(lambdas, etas)) ==
      Shifted(old(t.View()), old(ParamsOf(lambdas, etas)), ch, ln, expm, t.root, t.leafNodeCount, rootOnly, noRoot,
              s, picks, u, a1, a2, a3)
  {
    var node := SelectNode(t, rootOnly, noRoot, picks);
    if node.Fail? {
      return Fail(node.error);
    }
    assert t.View()[node.value] == t.nodes[node.value].Record();
    if t.nodes[node.value].parent == -1 {
      r := RootProposal(t, lambdas, etas, ch, ln, expm, node.value, s, u, a1, a2);
    } else {
      r := NonRootProposal(t, lambdas, etas, ch, ln, expm, node.value, u, a1, a2, a3);
    }
  }
}
