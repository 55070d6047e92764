// Topology surgery shared by the tree operators: detaching the branch
// above a node together with its parent, and re-attaching it at a new time
// above another branch, with the type changes of the branches involved
// merged or split so that every stretch of branch keeps its changes; and
// the re-derivation of a branch's dormancy indicator and dormant fraction.
//
// Each operation works on the tree's node objects one step at a time, as
// the source does. Its contract gives the new arena as a function of the
// old one, written as the same steps on values, and lemmas state what that
// function does to the tree.

module TreeSurgery {
  import opened Wrappers
  import opened Doubles
  import opened SeedbankNodes
  import opened SeedbankTrees

  /* ---------------------------------------------------------------------
   * The steps, on node records.
   */

  function Added(n: NodeRec, ty: int, time: real): NodeRec
  {
    n.(changeTypes := n.changeTypes + [ty], changeTimes := n.changeTimes + [time], changeCount := n.changeCount + 1)
  }

  function Cleared(n: NodeRec): NodeRec
  {
    n.(changeTypes := [], changeTimes := [], changeCount := 0)
  }

  /** A node's changes followed by the given ones, as repeated addChange calls leave them. */
  function Appended(n: NodeRec, types: seq<int>, times: seq<real>): NodeRec
  {
    n.(changeTypes := n.changeTypes + types, changeTimes := n.changeTimes + times, changeCount := n.changeCount + |types|)
  }

  /** truncateChanges(k) for k >= 0: the first k changes, or all of them. */
  function Truncated(n: NodeRec, k: nat): NodeRec
    requires n.Consistent()
  {
    var m := Min(k, n.changeCount);
    n.(changeTypes := n.changeTypes[..m], changeTimes := n.changeTimes[..m], changeCount := m)
  }

  /** A record with in-range links keeps the arena shaped. */
  lemma ShapedUpdate(v: seq<NodeRec>, k: int, r: NodeRec)
    requires Shaped(v) && 0 <= k < |v|
    requires r.Consistent() && -1 <= r.parent < |v|
    requires forall c :: 0 <= c < |r.children| ==> 0 <= r.children[c] < |v|
    ensures Shaped(v[k := r])
  {
  }

  /** RemoveFirst keeps only entries of the list. */
  lemma RemoveFirstInRange(children: seq<int>, c: int, n: int)
    requires forall k :: 0 <= k < |children| ==> 0 <= children[k] < n
    ensures forall k :: 0 <= k < |RemoveFirst(children, c)| ==> 0 <= RemoveFirst(children, c)[k] < n
    decreases |children|
  {
    if |children| > 0 && children[0] != c {
      RemoveFirstInRange(children[1..], c, n);
    }
  }

  /*
   * The same steps on the arena: node k of v changed by one step. Each
   * keeps the arena shaped.
   */

  function AddIn(v: seq<NodeRec>, k: int, ty: int, time: real): (w: seq<NodeRec>)
    requires Shaped(v) && 0 <= k < |v|
    ensures Shaped(w) && |w| == |v|
  {
    ShapedUpdate(v, k, Added(v[k], ty, time));
    v[k := Added(v[k], ty, time)]
  }

  function ClearIn(v: seq<NodeRec>, k: int): (w: seq<NodeRec>)
    requires Shaped(v) && 0 <= k < |v|
    ensures Shaped(w) && |w| == |v|
  {
    ShapedUpdate(v, k, Cleared(v[k]));
    v[k := Cleared(v[k])]
  }

  function AppendIn(v: seq<NodeRec>, k: int, types: seq<int>, times: seq<real>): (w: seq<NodeRec>)
    requires Shaped(v) && 0 <= k < |v| && |types| == |times|
    ensures Shaped(w) && |w| == |v|
  {
    ShapedUpdate(v, k, Appended(v[k], types, times));
    v[k := Appended(v[k], types, times)]
  }

  function TruncateIn(v: seq<NodeRec>, k: int, m: nat): (w: seq<NodeRec>)
    requires Shaped(v) && 0 <= k < |v|
    ensures Shaped(w) && |w| == |v|
  {
    ShapedUpdate(v, k, Truncated(v[k], m));
    v[k := Truncated(v[k], m)]
  }

  function TypeIn(v: seq<NodeRec>, k: int, ty: int): (w: seq<NodeRec>)
    requires Shaped(v) && 0 <= k < |v|
    ensures Shaped(w) && |w| == |v|
  {
    ShapedUpdate(v, k, v[k].(nodeType := ty));
    v[k := v[k].(nodeType := ty)]
  }

  function HeightIn(v: seq<NodeRec>, k: int, h: real): (w: seq<NodeRec>)
    requires Shaped(v) && 0 <= k < |v|
    ensures Shaped(w) && |w| == |v|
  {
    ShapedUpdate(v, k, v[k].(height := h));
    v[k := v[k].(height := h)]
  }

  function ParentIn(v: seq<NodeRec>, k: int, p: int): (w: seq<NodeRec>)
    requires Shaped(v) && 0 <= k < |v| && -1 <= p < |v|
    ensures Shaped(w) && |w| == |v|
  {
    ShapedUpdate(v, k, v[k].(parent := p));
    v[k := v[k].(parent := p)]
  }

  function ChildrenIn(v: seq<NodeRec>, k: int, cs: seq<int>): (w: seq<NodeRec>)
    requires Shaped(v) && 0 <= k < |v|
    requires forall c :: 0 <= c < |cs| ==> 0 <= cs[c] < |v|
    ensures Shaped(w) && |w| == |v|
  {
    ShapedUpdate(v, k, v[k].(children := cs));
    v[k := v[k].(children := cs)]
  }

  /**
   * replace(node, child, replacement): the child is removed from node's
   * children (its first occurrence), the replacement is appended and takes
   * node as its parent (BEAST's addChild sets the parent link).
   */
  function Replaced(v: seq<NodeRec>, node: int, child: int, repl: int): (w: seq<NodeRec>)
    requires Shaped(v) && 0 <= node < |v| && 0 <= repl < |v|
    ensures Shaped(w) && |w| == |v|
  {
    RemoveFirstInRange(v[node].children, child, |v|);
    ParentIn(ChildrenIn(v, node, RemoveFirst(v[node].children, child) + [repl]), repl, node)
  }

  /** Setting a slot of a non-empty in-range child list to a node keeps it in range. */
  lemma SettersInRange(cs: seq<int>, x: int, n: int)
    requires |cs| >= 1 && 0 <= x < n
    requires forall c :: 0 <= c < |cs| ==> 0 <= cs[c] < n
    ensures forall c :: 0 <= c < |SetRight(cs, x)| ==> 0 <= SetRight(cs, x)[c] < n
    ensures forall c :: 0 <= c < |SetLeft(cs, x)| ==> 0 <= SetLeft(cs, x)[c] < n
  {
  }

  /** setRight(dest) when the left child is `node`, else setLeft(dest) when the right child is; otherwise nothing. */
  function SwapInFor(v: seq<NodeRec>, p: int, node: int, dest: int): (w: seq<NodeRec>)
    requires Shaped(v) && 0 <= p < |v| && 0 <= node < |v| && 0 <= dest < |v|
    ensures Shaped(w) && |w| == |v|
  {
    var cs := v[p].children;
    if |cs| >= 1 then SettersInRange(cs, dest, |v|); SwapOrNot(v, p, cs, node, dest) else v
  }

  function SwapOrNot(v: seq<NodeRec>, p: int, cs: seq<int>, node: int, dest: int): (w: seq<NodeRec>)
    requires Shaped(v) && 0 <= p < |v| && 0 <= node < |v| && 0 <= dest < |v|
    requires cs == v[p].children && |cs| >= 1
    ensures Shaped(w) && |w| == |v|
  {
    if GetLeft(cs) == node then ChildrenIn(v, p, SetRight(cs, dest))
    else if GetRight(cs) == node then ChildrenIn(v, p, SetLeft(cs, dest))
    else v
  }

  /** getOtherChild: the right child when the left one is `child`, else the left one; a parent without children raises. */
  function OtherChild(children: seq<int>, child: int): Result<int>
  {
    if |children| == 0 then Fail(NullPointer)
    else if children[0] == child then Ok(GetRight(children))
    else Ok(children[0])
  }

  /** Of two distinct children, getOtherChild returns the one that is not `child`. */
  lemma OtherChildOfPair(a: int, b: int, child: int)
    requires a != b && (child == a || child == b)
    ensures OtherChild([a, b], child).Ok?
    ensures var s := OtherChild([a, b], child).value; s != child && (s == a || s == b)
  {
  }

  /** No node lists itself among its children. */
  predicate NoSelfChild(v: seq<NodeRec>)
  {
    forall i, k :: 0 <= i < |v| && 0 <= k < |v[i].children| ==> v[i].children[k] != i
  }

  /* ---------------------------------------------------------------------
   * recalculateLambda: the dormancy indicator and dormant fraction of a branch.
   */

  /**
   * The summed length of the segments that end in a change to `target`,
   * backwards in time from `start`. A change to type 1 ends a dormant
   * segment, so target 1 gives the dormant time before the last change.
   */
  function ChangeCredited(target: int, start: real, types: seq<int>, times: seq<real>): real
    requires |types| == |times|
    decreases |types|
  {
    if |types| == 0 then 0.0
    else
      var n := |types| - 1;
      ChangeCredited(target, start, types[..n], times[..n])
        + (if types[n] == target then times[n] - PrevTime(start, times[..n]) else 0.0)
  }

  /** The dormant time recalculateLambda finds on branch i. */
  function BranchDormant(v: seq<NodeRec>, i: int): real
    requires Shaped(v) && 0 <= i < |v|
  {
    ChangeCredited(1, v[i].height, v[i].changeTypes, v[i].changeTimes)
  }

  /** BEAST's getLength: parent height minus height, 0 for the root. */
  function BranchLength(v: seq<NodeRec>, i: int): real
    requires Shaped(v) && 0 <= i < |v|
  {
    if v[i].parent == -1 then 0.0 else v[v[i].parent].height - v[i].height
  }

  function Indicator(v: seq<NodeRec>, i: int): int
    requires Shaped(v) && 0 <= i < |v|
  {
    if BranchDormant(v, i) == 0.0 then 0 else 1
  }

  function DormantFraction(v: seq<NodeRec>, i: int): Double
    requires Shaped(v) && 0 <= i < |v|
  {
    Div(BranchDormant(v, i), BranchLength(v, i))
  }

  /** The lambdas and etas parameters, one entry per node. */
  datatype Indicators = Indicators(lambdas: seq<Double>, etas: seq<int>)

  predicate Fits(ind: Indicators, v: seq<NodeRec>)
  {
    |ind.lambdas| == |v| && |ind.etas| == |v|
  }

  /** recalculateLambda(i) on the parameters, reading the tree v. */
  function Recalc(ind: Indicators, v: seq<NodeRec>, i: int): Indicators
    requires Shaped(v) && 0 <= i < |v| && Fits(ind, v)
  {
    Indicators(ind.lambdas[i := DormantFraction(v, i)], ind.etas[i := Indicator(v, i)])
  }

  /** With binary change types the dormant time is what getTotalLength credits to type 0 before the last change. */
  lemma {:induction false} DormantIsCreditedToZero(start: real, types: seq<int>, times: seq<real>)
    requires |types| == |times| && AllBinary(types)
    ensures ChangeCredited(1, start, types, times) == CreditedLength(0, start, types, times)
    decreases |types|
  {
    if |types| > 0 {
      var n := |types| - 1;
      assert AllBinary(types[..n]);
      DormantIsCreditedToZero(start, types[..n], times[..n]);
    }
  }

  /** Along ordered change times the credited time lies between 0 and the time of the last change. */
  lemma {:induction false} ChangeCreditedBounds(target: int, start: real, types: seq<int>, times: seq<real>)
    requires |types| == |times|
    requires forall i :: 0 <= i < |times| ==> start <= times[i]
    requires forall i, j :: 0 <= i < j < |times| ==> times[i] <= times[j]
    ensures 0.0 <= ChangeCredited(target, start, types, times) <= PrevTime(start, times) - start
    decreases |types|
  {
    if |types| > 0 {
      var n := |types| - 1;
      ChangeCreditedBounds(target, start, types[..n], times[..n]);
      if n > 0 {
        assert times[..n][n - 1] <= times[n];
      }
    }
  }

  /**
   * On an ordered, non-empty branch the dormant fraction is a number in
   * [0, 1], and the indicator is 0 exactly when that fraction is 0.
   */
  lemma FractionInUnit(v: seq<NodeRec>, i: int)
    requires Shaped(v) && 0 <= i < |v| && v[i].parent != -1
    requires BranchTimesOrdered(v[v[i].parent].height, v[i])
    requires BranchLength(v, i) > 0.0
    ensures DormantFraction(v, i).Finite?
    ensures 0.0 <= DormantFraction(v, i).v <= 1.0
    ensures Indicator(v, i) == 0 <==> DormantFraction(v, i).v == 0.0
  {
    var n := v[i];
    var top := v[n.parent].height;
    var seg := [n.height] + n.changeTimes + [top];
    forall a, b | 0 <= a < b < |n.changeTimes| ensures n.changeTimes[a] <= n.changeTimes[b] {
      AscendingIsSorted(seg, a + 1, b + 1);
    }
    forall a | 0 <= a < |n.changeTimes| ensures n.height <= n.changeTimes[a] {
      AscendingIsSorted(seg, 0, a + 1);
    }
    AscendingIsSorted(seg, |n.changeTimes|, |n.changeTimes| + 1);
    ChangeCreditedBounds(1, n.height, n.changeTypes, n.changeTimes);
    var d := BranchDormant(v, i);
    var len := BranchLength(v, i);
    assert PrevTime(n.height, n.changeTimes) == seg[|n.changeTimes|];
    assert d <= len;
    assert d / len <= 1.0 by {
      assert d / len * len == d;
    }
  }

  /**
   * When a branch ends active (its last change is to type 1, or it is
   * active throughout), the dormant time is the whole type-0 length that
   * getTotalLength reports, so leaving out the last segment loses nothing.
   */
  lemma DormantIsTypeLength(n: NodeRec, parentHeight: real)
    requires n.Consistent() && AllBinary(n.changeTypes)
    requires FinalType(n.nodeType, n.changeTypes) == 1
    ensures ChangeCredited(1, n.height, n.changeTypes, n.changeTimes)
            == TypeLength(0, n.height, n.nodeType, n.changeTypes, n.changeTimes, parentHeight)
  {
    DormantIsCreditedToZero(n.height, n.changeTypes, n.changeTimes);
  }

  /* ---------------------------------------------------------------------
   * Steps on the tree's node objects, each giving the new arena.
   */

  method AddChangeAt(t: SeedbankTree, k: int, ty: int, time: real)
    requires t.Wf() && 0 <= k < |t.nodes|
    modifies t.nodes[k]
    ensures t.Wf()
    ensures t.View() == AddIn(old(t.View()), k, ty, time)
  {
    ghost var v := t.View();
    t.nodes[k].AddChange(ty, time);
    forall i | 0 <= i < |t.nodes| ensures t.View()[i] == v[k := t.nodes[k].Record()][i] {
      if i != k {
        assert t.nodes[i] != t.nodes[k];
      }
    }
  }

  method ClearAt(t: SeedbankTree, k: int)
    requires t.Wf() && 0 <= k < |t.nodes|
    modifies t.nodes[k]
    ensures t.Wf()
    ensures t.View() == ClearIn(old(t.View()), k)
  {
    ghost var v := t.View();
    t.nodes[k].ClearChanges();
    forall i | 0 <= i < |t.nodes| ensures t.View()[i] == v[k := t.nodes[k].Record()][i] {
      if i != k {
        assert t.nodes[i] != t.nodes[k];
      }
    }
  }

  method TruncateAt(t: SeedbankTree, k: int, m: nat)
    requires t.Wf() && 0 <= k < |t.nodes|
    modifies t.nodes[k]
    ensures t.Wf()
    ensures t.View() == TruncateIn(old(t.View()), k, m)
  {
    ghost var v := t.View();
    var _ := t.nodes[k].TruncateChanges(m);
    forall i | 0 <= i < |t.nodes| ensures t.View()[i] == v[k := t.nodes[k].Record()][i] {
      if i != k {
        assert t.nodes[i] != t.nodes[k];
      }
    }
  }

  /** setNodeType: refuses a type other than 0 or 1. */
  method SetNodeTypeAt(t: SeedbankTree, k: int, ty: int) returns (r: Outcome)
    requires t.Wf() && 0 <= k < |t.nodes|
    modifies t.nodes[k]
    ensures t.Wf()
    ensures r == (if ty == 0 || ty == 1 then Done else Failed(IllegalArgument))
    ensures t.View() == if r.Done? then TypeIn(old(t.View()), k, ty) else old(t.View())
  {
    ghost var v := t.View();
    r := t.nodes[k].SetNodeType(ty);
    forall i | 0 <= i < |t.nodes| ensures t.View()[i] == v[k := t.nodes[k].Record()][i] {
      if i != k {
        assert t.nodes[i] != t.nodes[k];
      }
    }
    assert t.View() == v[k := t.nodes[k].Record()];
    if r.Failed? {
      assert v[k := v[k]] == v;
    }
  }

  method SetHeightAt(t: SeedbankTree, k: int, h: real)
    requires t.Wf() && 0 <= k < |t.nodes|
    modifies t.nodes[k]
    ensures t.Wf()
    ensures t.View() == HeightIn(old(t.View()), k, h)
  {
    ghost var v := t.View();
    t.nodes[k].height := h;
    forall i | 0 <= i < |t.nodes| ensures t.View()[i] == v[k := t.nodes[k].Record()][i] {
      if i != k {
        assert t.nodes[i] != t.nodes[k];
      }
    }
  }

  method SetParentAt(t: SeedbankTree, k: int, p: int)
    requires t.Wf() && 0 <= k < |t.nodes| && -1 <= p < |t.nodes|
    modifies t.nodes[k]
    ensures t.Wf()
    ensures t.View() == ParentIn(old(t.View()), k, p)
  {
    ghost var v := t.View();
    t.nodes[k].parent := p;
    forall i | 0 <= i < |t.nodes| ensures t.View()[i] == v[k := t.nodes[k].Record()][i] {
      if i != k {
        assert t.nodes[i] != t.nodes[k];
      }
    }
  }

  method SetChildrenAt(t: SeedbankTree, k: int, cs: seq<int>)
    requires t.Wf() && 0 <= k < |t.nodes|
    requires forall c :: 0 <= c < |cs| ==> 0 <= cs[c] < |t.nodes|
    modifies t.nodes[k]
    ensures t.Wf()
    ensures t.View() == ChildrenIn(old(t.View()), k, cs)
  {
    ghost var v := t.View();
    t.nodes[k].children := cs;
    forall i | 0 <= i < |t.nodes| ensures t.View()[i] == v[k := t.nodes[k].Record()][i] {
      if i != k {
        assert t.nodes[i] != t.nodes[k];
      }
    }
  }

  method ReplaceAt(t: SeedbankTree, node: int, child: int, repl: int)
    requires t.Wf() && 0 <= node < |t.nodes| && 0 <= repl < |t.nodes|
    modifies t.nodes[node], t.nodes[repl]
    ensures t.Wf()
    ensures t.View() == Replaced(old(t.View()), node, child, repl)
  {
    ghost var v := t.View();
    RemoveFirstInRange(v[node].children, child, |t.nodes|);
    assert t.nodes[node].Record() == v[node];
    SetChildrenAt(t, node, RemoveFirst(t.nodes[node].children, child) + [repl]);
    SetParentAt(t, repl, node);
  }

  /* ---------------------------------------------------------------------
   * Edits to one branch's change list at a position, on values and on the
   * tree's node objects.
   */

  /** insertChange(idx, ty, time) on node k, for idx within 0..changeCount. */
  function InsertedIn(v: seq<NodeRec>, k: int, idx: int, ty: int, time: real): (w: seq<NodeRec>)
    requires Shaped(v) && 0 <= k < |v| && 0 <= idx <= v[k].changeCount
    ensures Shaped(w) && |w| == |v|
  {
    var n := v[k];
    var r := n.(changeTypes := InsertAt(n.changeTypes, idx, ty), changeTimes := InsertAt(n.changeTimes, idx, time),
                changeCount := n.changeCount + 1);
    ShapedUpdate(v, k, r);
    v[k := r]
  }

  /** removeChange(idx) on node k, for idx within 0..changeCount-1. */
  function RemovedIn(v: seq<NodeRec>, k: int, idx: int): (w: seq<NodeRec>)
    requires Shaped(v) && 0 <= k < |v| && 0 <= idx < v[k].changeCount
    ensures Shaped(w) && |w| == |v|
  {
    var n := v[k];
    var r := n.(changeTypes := RemoveAt(n.changeTypes, idx), changeTimes := RemoveAt(n.changeTimes, idx),
                changeCount := n.changeCount - 1);
    ShapedUpdate(v, k, r);
    v[k := r]
  }

  /** setChangeTime(idx, time) on node k, for idx within 0..changeCount-1. */
  function RetimedIn(v: seq<NodeRec>, k: int, idx: int, time: real): (w: seq<NodeRec>)
    requires Shaped(v) && 0 <= k < |v| && 0 <= idx < v[k].changeCount
    ensures Shaped(w) && |w| == |v|
  {
    var r := v[k].(changeTimes := v[k].changeTimes[idx := time]);
    ShapedUpdate(v, k, r);
    v[k := r]
  }

  method InsertChangeAt(t: SeedbankTree, k: int, idx: int, ty: int, time: real)
    requires t.Wf() && 0 <= k < |t.nodes| && 0 <= idx <= t.View()[k].changeCount
    modifies t.nodes[k]
    ensures t.Wf()
    ensures t.View() == InsertedIn(old(t.View()), k, idx, ty, time)
  {
    ghost var v := t.View();
    assert t.nodes[k].Record() == v[k];
    var _ := t.nodes[k].InsertChange(idx, ty, time);
    forall i | 0 <= i < |t.nodes| ensures t.View()[i] == v[k := t.nodes[k].Record()][i] {
      if i != k {
        assert t.nodes[i] != t.nodes[k];
      }
    }
  }

  method RemoveChangeAt(t: SeedbankTree, k: int, idx: int)
    requires t.Wf() && 0 <= k < |t.nodes| && 0 <= idx < t.View()[k].changeCount
    modifies t.nodes[k]
    ensures t.Wf()
    ensures t.View() == RemovedIn(old(t.View()), k, idx)
  {
    ghost var v := t.View();
    assert t.nodes[k].Record() == v[k];
    var _ := t.nodes[k].RemoveChange(idx);
    forall i | 0 <= i < |t.nodes| ensures t.View()[i] == v[k := t.nodes[k].Record()][i] {
      if i != k {
        assert t.nodes[i] != t.nodes[k];
      }
    }
  }

  method SetChangeTimeAt(t: SeedbankTree, k: int, idx: int, time: real)
    requires t.Wf() && 0 <= k < |t.nodes| && 0 <= idx < t.View()[k].changeCount
    modifies t.nodes[k]
    ensures t.Wf()
    ensures t.View() == RetimedIn(old(t.View()), k, idx, time)
  {
    ghost var v := t.View();
    assert t.nodes[k].Record() == v[k];
    var _ := t.nodes[k].SetChangeTime(idx, time);
    forall i | 0 <= i < |t.nodes| ensures t.View()[i] == v[k := t.nodes[k].Record()][i] {
      if i != k {
        assert t.nodes[i] != t.nodes[k];
      }
    }
  }

  /* ---------------------------------------------------------------------
   * recalculateLambda on the parameter arrays.
   */

  method RecalculateLambda(t: SeedbankTree, lambdas: array?<Double>, etas: array?<int>, node: int)
    requires t.Wf() && 0 <= node < |t.nodes|
    requires lambdas != null ==> lambdas.Length == |t.nodes|
    requires etas != null ==> etas.Length == |t.nodes|
    modifies lambdas, etas
    ensures t.Wf() && t.View() == old(t.View())
    ensures lambdas == null || etas == null ==>
      (lambdas != null ==> lambdas[..] == old(lambdas[..])) && (etas != null ==> etas[..] == old(etas[..]))
    ensures lambdas != null && etas != null ==>
      Indicators(lambdas[..], etas[..]) == Recalc(Indicators(old(lambdas[..]), old(etas[..])), t.View(), node)
  {
    if lambdas == null || etas == null {
      return;
    }
    var n := t.nodes[node];
    assert t.View()[node] == n.Record();
    var dormant := 0.0;
    var last := n.height;
    var i := 0;
    while i < n.nTypeChanges
      invariant 0 <= i <= n.nTypeChanges
      invariant dormant == ChangeCredited(1, n.height, n.changeTypes[..i], n.changeTimes[..i])
      invariant last == PrevTime(n.height, n.changeTimes[..i])
    {
      assert n.changeTypes[..i + 1][..i] == n.changeTypes[..i];
      assert n.changeTimes[..i + 1][..i] == n.changeTimes[..i];
      if n.changeTypes[i] == 1 {
        dormant := dormant + (n.changeTimes[i] - last);
      }
      last := n.changeTimes[i];
      i := i + 1;
    }
    assert n.changeTypes[..i] == n.changeTypes && n.changeTimes[..i] == n.changeTimes;
    var length := if n.parent == -1 then 0.0 else t.nodes[n.parent].height - n.height;
    etas[node] := if dormant == 0.0 then 0 else 1;
    lambdas[node] := Div(dormant, length);
  }

  /* ---------------------------------------------------------------------
   * The four surgery operations.
   */

  /** One more addChange after a run of them is a longer run. */
  lemma AppendThenAdd(v: seq<NodeRec>, k: int, types: seq<int>, times: seq<real>, ty: int, time: real)
    requires Shaped(v) && 0 <= k < |v| && |types| == |times|
    ensures AddIn(AppendIn(v, k, types, times), k, ty, time) == AppendIn(v, k, types + [ty], times + [time])
  {
    assert v[k].changeTypes + types + [ty] == v[k].changeTypes + (types + [ty]);
    assert v[k].changeTimes + times + [time] == v[k].changeTimes + (times + [time]);
  }

  /** The loop that copies changes lo..end of node `from` onto node `to`, in order. */
  method AppendChangesFrom(t: SeedbankTree, to: int, from: int, lo: int)
    requires t.Wf() && 0 <= to < |t.nodes| && 0 <= from < |t.nodes| && to != from
    requires 0 <= lo <= t.View()[from].changeCount
    modifies t.nodes[to]
    ensures t.Wf()
    ensures var v := old(t.View());
      t.View() == AppendIn(v, to, v[from].changeTypes[lo..], v[from].changeTimes[lo..])
  {
    ghost var v := t.View();
    var src := t.nodes[from];
    assert src.Record() == v[from];
    var idx := lo;
    assert v[to].changeTypes + [] == v[to].changeTypes && v[to].changeTimes + [] == v[to].changeTimes;
    while idx < src.nTypeChanges
      invariant lo <= idx <= src.nTypeChanges
      invariant t.Wf() && t.nodes == old(t.nodes)
      invariant src.Record() == v[from]
      invariant t.View() == AppendIn(v, to, v[from].changeTypes[lo..idx], v[from].changeTimes[lo..idx])
    {
      assert v[from].changeTypes[lo..idx + 1] == v[from].changeTypes[lo..idx] + [src.changeTypes[idx]];
      assert v[from].changeTimes[lo..idx + 1] == v[from].changeTimes[lo..idx] + [src.changeTimes[idx]];
      AppendThenAdd(v, to, v[from].changeTypes[lo..idx], v[from].changeTimes[lo..idx], src.changeTypes[idx], src.changeTimes[idx]);
      AddChangeAt(t, to, src.changeTypes[idx], src.changeTimes[idx]);
      idx := idx + 1;
    }
    assert v[from].changeTypes[lo..idx] == v[from].changeTypes[lo..];
    assert v[from].changeTimes[lo..idx] == v[from].changeTimes[lo..];
  }

  /** The parameters, when both inputs are present. */
  ghost function ParamsOf(lambdas: array?<Double>, etas: array?<int>): Option<Indicators>
    reads lambdas, etas
  {
    if lambdas != null && etas != null then Some(Indicators(lambdas[..], etas[..])) else None
  }

  /**
   * What a surgery leaves: the outcome, the arena, and the lambdas and etas
   * when both are present (None otherwise).
   */
  datatype Surgery = Surgery(outcome: Outcome, view: seq<NodeRec>, params: Option<Indicators>)

  /**
   * The part of disconnectBranch both paths share: refused when node or its
   * parent is the root; otherwise the parent's changes are appended to the
   * sister's and the sister replaces the parent under the grandparent.
   */
  datatype Merge = Merge(outcome: Outcome, view: seq<NodeRec>, sister: int, parent: int)

  function MergedIntoSister(v: seq<NodeRec>, node: int): (m: Merge)
    requires Shaped(v) && 0 <= node < |v|
    ensures Shaped(m.view) && |m.view| == |v|
    ensures m.outcome.Done? ==> m.parent == v[node].parent && 0 <= m.parent < |v| && 0 <= m.sister < |v|
  {
    var p := v[node].parent;
    if p == -1 || v[p].parent == -1 then Merge(Failed(IllegalArgument), v, -1, p)
    else if |v[p].children| == 0 then Merge(Failed(NullPointer), v, -1, p)
    else
      var s := OtherChild(v[p].children, node).value;
      var gp := v[p].parent;
      if s == -1 then
        // the copy loop, or else addChild, fails on the missing sister
        RemoveFirstInRange(v[gp].children, p, |v|);
        Merge(Failed(NullPointer),
              if v[p].changeCount > 0 then v else ChildrenIn(v, gp, RemoveFirst(v[gp].children, p)), s, p)
      else
        Merge(Done, Replaced(AppendIn(v, s, v[p].changeTypes, v[p].changeTimes), gp, p, s), s, p)
  }

  /**
   * disconnectBranch(node): after the shared part the parent's changes are
   * cleared. With lambdas and etas present the sister's indicators are
   * recalculated first, and after the parent's the node's changes are
   * cleared and both their indicators recalculated too.
   */
  function Disconnected(v: seq<NodeRec>, node: int, ind: Option<Indicators>): (r: Surgery)
    requires Shaped(v) && 0 <= node < |v|
    requires ind.Some? ==> Fits(ind.value, v)
    ensures Shaped(r.view) && |r.view| == |v| && (r.params.Some? <==> ind.Some?)
    ensures r.params.Some? ==> Fits(r.params.value, r.view)
  {
    var m := MergedIntoSister(v, node);
    if m.outcome.Failed? then Surgery(m.outcome, m.view, ind)
    else
      if ind.None? then Surgery(Done, ClearIn(m.view, m.parent), None)
      else
        var a := ClearRecalc(Recalc(ind.value, m.view, m.sister), m.view, m.parent);
        var b := ClearRecalc(a.0, a.1, node);
        Surgery(Done, b.1, Some(b.0))
  }

  /** Clearing node k's changes, then recalculating its indicators on the cleared arena. */
  function ClearRecalc(ind: Indicators, v: seq<NodeRec>, k: int): (r: (Indicators, seq<NodeRec>))
    requires Shaped(v) && 0 <= k < |v| && Fits(ind, v)
    ensures Shaped(r.1) && |r.1| == |v| && Fits(r.0, r.1)
  {
    var w := ClearIn(v, k);
    (Recalc(ind, w, k), w)
  }

  method MergeIntoSister(t: SeedbankTree, node: int) returns (r: Outcome, s: int, p: int)
    requires t.Wf() && 0 <= node < |t.nodes| && NoSelfChild(t.View())
    modifies t.nodes
    ensures t.Wf()
    ensures Merge(r, t.View(), s, p) == MergedIntoSister(old(t.View()), node)
  {
    ghost var v := t.View();
    assert v[node] == t.nodes[node].Record();
    p := t.nodes[node].parent;
    s := -1;
    if p == -1 || t.nodes[p].parent == -1 {
      return Failed(IllegalArgument), s, p;
    }
    var pn := t.nodes[p];
    assert pn.Record() == v[p];
    if |pn.children| == 0 {
      return Failed(NullPointer), s, p;
    }
    s := OtherChild(pn.children, node).value;
    var gp := pn.parent;
    assert t.nodes[gp].Record() == v[gp];
    if s == -1 {
      if pn.nTypeChanges > 0 {
        return Failed(NullPointer), s, p;
      }
      RemoveFirstInRange(v[gp].children, p, |v|);
      SetChildrenAt(t, gp, RemoveFirst(t.nodes[gp].children, p));
      return Failed(NullPointer), s, p;
    }
    assert s != p;
    AppendChangesFrom(t, s, p, 0);
    assert v[p].changeTypes[0..] == v[p].changeTypes && v[p].changeTimes[0..] == v[p].changeTimes;
    ReplaceAt(t, gp, p, s);
    r := Done;
  }

  method DisconnectBranch(t: SeedbankTree, lambdas: array?<Double>, etas: array?<int>, node: int) returns (r: Outcome)
    requires t.Wf() && 0 <= node < |t.nodes| && NoSelfChild(t.View())
    requires lambdas != null ==> lambdas.Length == |t.nodes|
    requires etas != null ==> etas.Length == |t.nodes|
    modifies t.nodes, lambdas, etas
    ensures t.Wf()
    ensures var spec := Disconnected(old(t.View()), node, old(ParamsOf(lambdas, etas)));
      r == spec.outcome && t.View() == spec.view && ParamsOf(lambdas, etas) == spec.params
    ensures lambdas != null && etas == null ==> lambdas[..] == old(lambdas[..])
    ensures lambdas == null && etas != null ==> etas[..] == old(etas[..])
  {
    if lambdas != null && etas != null {
      r := DisconnectWithLambdas(t, lambdas, etas, node);
    } else {
      var s, p;
      r, s, p := MergeIntoSister(t, node);
      if r.Done? {
        ClearAt(t, p);
      }
    }
  }

  method DisconnectWithLambdas(t: SeedbankTree, lambdas: array<Double>, etas: array<int>, node: int) returns (r: Outcome)
    requires t.Wf() && 0 <= node < |t.nodes| && NoSelfChild(t.View())
    requires lambdas.Length == |t.nodes| && etas.Length == |t.nodes|
    modifies t.nodes, lambdas, etas
    ensures t.Wf()
    ensures var spec := Disconnected(old(t.View()), node, Some(Indicators(old(lambdas[..]), old(etas[..]))));
      r == spec.outcome && t.View() == spec.view && Some(Indicators(lambdas[..], etas[..])) == spec.params
  {
    ghost var i0 := Indicators(lambdas[..], etas[..]);
    var s, p;
    r, s, p := MergeIntoSister(t, node);
    if r.Failed? {
      return;
    }
    ghost var v1 := t.View();
    RecalculateLambda(t, lambdas, etas, s);
    ghost var i1 := Indicators(lambdas[..], etas[..]);
    assert i1 == Recalc(i0, v1, s);
    ClearAndRecalculate(t, lambdas, etas, p);
    ghost var a := (Indicators(lambdas[..], etas[..]), t.View());
    assert a == ClearRecalc(i1, v1, p);
    ClearAndRecalculate(t, lambdas, etas, node);
    assert (Indicators(lambdas[..], etas[..]), t.View()) == ClearRecalc(a.0, a.1, node);
  }

  /** Clearing node k's changes and then recalculating its indicators. */
  method ClearAndRecalculate(t: SeedbankTree, lambdas: array<Double>, etas: array<int>, k: int)
    requires t.Wf() && 0 <= k < |t.nodes|
    requires lambdas.Length == |t.nodes| && etas.Length == |t.nodes|
    modifies t.nodes[k], lambdas, etas
    ensures t.Wf()
    ensures (Indicators(lambdas[..], etas[..]), t.View()) == ClearRecalc(Indicators(old(lambdas[..]), old(etas[..])), old(t.View()), k)
  {
    ClearAt(t, k);
    RecalculateLambda(t, lambdas, etas, k);
  }

  /* ---------------------------------------------------------------------
   * connectBranch(node, dest, destTime).
   */

  /** The loop that finds the split: the first index whose change time is above t, or the list's length. */
  function FirstAbove(times: seq<real>, t: real): (k: nat)
    ensures k <= |times|
    ensures forall i :: 0 <= i < k ==> times[i] <= t
    ensures k < |times| ==> times[k] > t
    decreases |times|
  {
    if |times| == 0 || times[0] > t then 0 else 1 + FirstAbove(times[1..], t)
  }

  /** The entries from index k on; nothing when k is past the end (the copy loop then does not run). */
  function Suffix<T>(s: seq<T>, k: nat): seq<T>
  {
    if k <= |s| then s[k..] else []
  }

  /**
   * The split shared by both paths: the parent p moves to destTime, its
   * changes are replaced by dest's changes above destTime, and dest keeps
   * the ones up to destTime.
   */
  function SplitAt(v: seq<NodeRec>, p: int, dest: int, destTime: real): (w: seq<NodeRec>)
    requires Shaped(v) && 0 <= p < |v| && 0 <= dest < |v|
    ensures Shaped(w) && |w| == |v|
  {
    var w1 := HeightIn(v, p, destTime);
    Divided(w1, p, dest, FirstAbove(w1[dest].changeTimes, destTime))
  }

  /** p's changes replaced by dest's from index split on, and dest truncated to the ones before. */
  function Divided(v: seq<NodeRec>, p: int, dest: int, split: nat): (w: seq<NodeRec>)
    requires Shaped(v) && 0 <= p < |v| && 0 <= dest < |v|
    ensures Shaped(w) && |w| == |v|
  {
    var w2 := ClearIn(v, p);
    var d := w2[dest];
    TruncateIn(AppendIn(w2, p, Suffix(d.changeTypes, split), Suffix(d.changeTimes, split)), dest, split)
  }

  /**
   * The topology change shared by both paths: p replaces dest under dest's
   * parent, dest takes p as its parent, and dest takes the place of p's
   * child that is not node.
   */
  function Attached(v: seq<NodeRec>, p: int, node: int, dest: int): (w: seq<NodeRec>)
    requires Shaped(v) && 0 <= p < |v| && 0 <= node < |v| && 0 <= dest < |v| && v[dest].parent != -1
    ensures Shaped(w) && |w| == |v|
  {
    var w6 := Replaced(v, v[dest].parent, dest, p);
    SwapInFor(ParentIn(w6, dest, p), p, node, dest)
  }

  /**
   * connectBranch(node, dest, destTime): refused when node or dest is the
   * root. On the plain path the parent takes dest's final type after the
   * split (setNodeType refusing a type other than 0 or 1 once the split is
   * done); on the lambda path the parent's type is left alone and the
   * indicators of dest, the parent and the node are recalculated.
   */
  function Connected(v: seq<NodeRec>, node: int, dest: int, destTime: real, ind: Option<Indicators>): (r: Surgery)
    requires Shaped(v) && 0 <= node < |v| && 0 <= dest < |v|
    requires ind.Some? ==> Fits(ind.value, v)
    ensures Shaped(r.view) && |r.view| == |v| && (r.params.Some? <==> ind.Some?)
    ensures r.params.Some? ==> Fits(r.params.value, r.view)
  {
    if v[node].parent == -1 || v[dest].parent == -1 then Surgery(Failed(IllegalArgument), v, ind)
    else
      var p := v[node].parent;
      var w4 := SplitAt(v, p, dest, destTime);
      assert w4[dest].parent == v[dest].parent;
      if ind.None? then
        var ft := FinalType(w4[dest].nodeType, w4[dest].changeTypes);
        if ft != 0 && ft != 1 then Surgery(Failed(IllegalArgument), w4, None)
        else Surgery(Done, Attached(TypeIn(w4, p, ft), p, node, dest), None)
      else
        var w := Attached(w4, p, node, dest);
        Surgery(Done, w, Some(Recalc(Recalc(Recalc(ind.value, w, dest), w, p), w, node)))
  }

  method FindSplit(times: seq<real>, destTime: real) returns (split: nat)
    ensures split == FirstAbove(times, destTime)
  {
    split := 0;
    while split < |times|
      invariant split <= |times|
      invariant FirstAbove(times, destTime) == split + FirstAbove(times[split..], destTime)
    {
      assert times[split..][1..] == times[split + 1..];
      if times[split] > destTime {
        break;
      }
      split := split + 1;
    }
  }

  method SplitBranch(t: SeedbankTree, p: int, dest: int, destTime: real)
    requires t.Wf() && 0 <= p < |t.nodes| && 0 <= dest < |t.nodes|
    modifies t.nodes
    ensures t.Wf()
    ensures t.View() == SplitAt(old(t.View()), p, dest, destTime)
  {
    ghost var v := t.View();
    SetHeightAt(t, p, destTime);
    ghost var w1 := t.View();
    assert w1 == HeightIn(v, p, destTime);
    assert t.nodes[dest].Record() == w1[dest];
    var split := FindSplit(t.nodes[dest].changeTimes, destTime);
    assert split == FirstAbove(w1[dest].changeTimes, destTime);
    DivideChanges(t, p, dest, split);
  }

  method DivideChanges(t: SeedbankTree, p: int, dest: int, split: nat)
    requires t.Wf() && 0 <= p < |t.nodes| && 0 <= dest < |t.nodes|
    modifies t.nodes
    ensures t.Wf()
    ensures t.View() == Divided(old(t.View()), p, dest, split)
  {
    ClearAt(t, p);
    ghost var w2 := t.View();
    ghost var w3 := AppendIn(w2, p, Suffix(w2[dest].changeTypes, split), Suffix(w2[dest].changeTimes, split));
    assert t.nodes[dest].Record() == w2[dest];
    if dest != p && split <= t.nodes[dest].nTypeChanges {
      AppendChangesFrom(t, p, dest, split);
      assert w2[dest].changeTypes[split..] == Suffix(w2[dest].changeTypes, split);
      assert w2[dest].changeTimes[split..] == Suffix(w2[dest].changeTimes, split);
    } else {
      // split past the end, or dest is the parent just cleared: the copy loop does not run
      assert Suffix(w2[dest].changeTypes, split) == [] && Suffix(w2[dest].changeTimes, split) == [];
      assert Appended(w2[p], [], []) == w2[p];
    }
    assert t.View() == w3;
    TruncateAt(t, dest, split);
  }

  method AttachBranch(t: SeedbankTree, p: int, node: int, dest: int)
    requires t.Wf() && 0 <= p < |t.nodes| && 0 <= node < |t.nodes| && 0 <= dest < |t.nodes|
    requires t.View()[dest].parent != -1
    modifies t.nodes
    ensures t.Wf()
    ensures t.View() == Attached(old(t.View()), p, node, dest)
  {
    ghost var v := t.View();
    assert t.nodes[dest].Record() == v[dest];
    ReplaceAt(t, t.nodes[dest].parent, dest, p);
    ghost var w6 := t.View();
    assert w6 == Replaced(v, v[dest].parent, dest, p);
    SetParentAt(t, dest, p);
    ghost var w7 := t.View();
    assert w7 == ParentIn(w6, dest, p);
    assert t.nodes[p].Record() == w7[p];
    var cs := t.nodes[p].children;
    if |cs| >= 1 {
      SettersInRange(cs, dest, |t.nodes|);
    }
    if GetLeft(cs) == node {
      SetChildrenAt(t, p, SetRight(cs, dest));
    } else if GetRight(cs) == node {
      SetChildrenAt(t, p, SetLeft(cs, dest));
    }
    assert t.View() == SwapInFor(w7, p, node, dest);
  }

  method ConnectBranch(t: SeedbankTree, lambdas: array?<Double>, etas: array?<int>, node: int, dest: int, destTime: real)
    returns (r: Outcome)
    requires t.Wf() && 0 <= node < |t.nodes| && 0 <= dest < |t.nodes|
    requires lambdas != null ==> lambdas.Length == |t.nodes|
    requires etas != null ==> etas.Length == |t.nodes|
    modifies t.nodes, lambdas, etas
    ensures t.Wf()
    ensures var spec := Connected(old(t.View()), node, dest, destTime, old(ParamsOf(lambdas, etas)));
      r == spec.outcome && t.View() == spec.view && ParamsOf(lambdas, etas) == spec.params
    ensures lambdas != null && etas == null ==> lambdas[..] == old(lambdas[..])
    ensures lambdas == null && etas != null ==> etas[..] == old(etas[..])
  {
    if lambdas != null && etas != null {
      r := ConnectWithLambdas(t, lambdas, etas, node, dest, destTime);
    } else {
      r := ConnectPlain(t, node, dest, destTime);
    }
  }

  method ConnectPlain(t: SeedbankTree, node: int, dest: int, destTime: real) returns (r: Outcome)
    requires t.Wf() && 0 <= node < |t.nodes| && 0 <= dest < |t.nodes|
    modifies t.nodes
    ensures t.Wf()
    ensures var spec := Connected(old(t.View()), node, dest, destTime, None);
      r == spec.outcome && t.View() == spec.view
  {
    ghost var v := t.View();
    assert t.nodes[node].Record() == v[node] && t.nodes[dest].Record() == v[dest];
    if t.nodes[node].parent == -1 || t.nodes[dest].parent == -1 {
      return Failed(IllegalArgument);
    }
    var p := t.nodes[node].parent;
    SplitBranch(t, p, dest, destTime);
    ghost var w4 := t.View();
    assert t.nodes[dest].Record() == w4[dest];
    r := SetNodeTypeAt(t, p, t.nodes[dest].GetFinalType());
    if r.Failed? {
      return;
    }
    AttachBranch(t, p, node, dest);
  }

  method ConnectWithLambdas(t: SeedbankTree, lambdas: array<Double>, etas: array<int>, node: int, dest: int, destTime: real)
    returns (r: Outcome)
    requires t.Wf() && 0 <= node < |t.nodes| && 0 <= dest < |t.nodes|
    requires lambdas.Length == |t.nodes| && etas.Length == |t.nodes|
    modifies t.nodes, lambdas, etas
    ensures t.Wf()
    ensures var spec := Connected(old(t.View()), node, dest, destTime, Some(Indicators(old(lambdas[..]), old(etas[..]))));
      r == spec.outcome && t.View() == spec.view && Some(Indicators(lambdas[..], etas[..])) == spec.params
  {
    ghost var v := t.View();
    assert t.nodes[node].Record() == v[node] && t.nodes[dest].Record() == v[dest];
    if t.nodes[node].parent == -1 || t.nodes[dest].parent == -1 {
      return Failed(IllegalArgument);
    }
    var p := t.nodes[node].parent;
    SplitBranch(t, p, dest, destTime);
    AttachBranch(t, p, node, dest);
    RecalculateThree(t, lambdas, etas, dest, p, node);
    return Done;
  }

  /** recalculateLambda on three nodes in turn, the tree unchanged. */
  method RecalculateThree(t: SeedbankTree, lambdas: array<Double>, etas: array<int>, a: int, b: int, c: int)
    requires t.Wf() && 0 <= a < |t.nodes| && 0 <= b < |t.nodes| && 0 <= c < |t.nodes|
    requires lambdas.Length == |t.nodes| && etas.Length == |t.nodes|
    modifies lambdas, etas
    ensures t.Wf() && t.View() == old(t.View())
    ensures Indicators(lambdas[..], etas[..]) ==
      Recalc(Recalc(Recalc(Indicators(old(lambdas[..]), old(etas[..])), t.View(), a), t.View(), b), t.View(), c)
  {
    ghost var i0 := Indicators(lambdas[..], etas[..]);
    RecalculateLambda(t, lambdas, etas, a);
    ghost var i1 := Indicators(lambdas[..], etas[..]);
    RecalculateLambda(t, lambdas, etas, b);
    ghost var i2 := Indicators(lambdas[..], etas[..]);
    assert i2 == Recalc(i1, t.View(), b);
    RecalculateLambda(t, lambdas, etas, c);
  }

  /* ---------------------------------------------------------------------
   * The operations at the root.
   */

  /** What a surgery that does not touch the indicators leaves: the outcome and the arena. */
  datatype Rewired = Rewired(outcome: Outcome, view: seq<NodeRec>)

  /**
   * disconnectBranchFromRoot(node): refused unless node's parent is the
   * root; the sister loses its parent link, leaves the old root's children
   * and has its changes cleared. A missing sister raises before any change.
   */
  function DisconnectedFromRoot(v: seq<NodeRec>, node: int): Rewired
    requires Shaped(v) && 0 <= node < |v|
  {
    var p := v[node].parent;
    if p == -1 || v[p].parent != -1 then Rewired(Failed(IllegalArgument), v)
    else
      var other := OtherChild(v[p].children, node);
      if other.Fail? || other.value == -1 then Rewired(Failed(NullPointer), v)
      else
        var s := other.value;
        RemoveFirstInRange(v[p].children, s, |v|);
        Rewired(Done, ClearIn(ChildrenIn(ParentIn(v, s, -1), p, RemoveFirst(v[p].children, s)), s))
  }

  /**
   * connectBranchToRoot(node, oldRoot, destTime): refused when node is the
   * root or oldRoot is not; node's parent moves to destTime, becomes
   * parentless, takes oldRoot in place of its child that is not node, and
   * oldRoot takes it as its parent.
   */
  function ConnectedToRoot(v: seq<NodeRec>, node: int, oldRoot: int, destTime: real): Rewired
    requires Shaped(v) && 0 <= node < |v| && 0 <= oldRoot < |v|
  {
    var r := v[node].parent;
    if r == -1 || v[oldRoot].parent != -1 then Rewired(Failed(IllegalArgument), v)
    else
      var w := SwapInFor(ParentIn(HeightIn(v, r, destTime), r, -1), r, node, oldRoot);
      Rewired(Done, ParentIn(w, oldRoot, r))
  }

  method DisconnectBranchFromRoot(t: SeedbankTree, node: int) returns (r: Outcome)
    requires t.Wf() && 0 <= node < |t.nodes|
    modifies t.nodes
    ensures t.Wf()
    ensures Rewired(r, t.View()) == DisconnectedFromRoot(old(t.View()), node)
  {
    ghost var v := t.View();
    assert t.nodes[node].Record() == v[node];
    var p := t.nodes[node].parent;
    if p == -1 {
      return Failed(IllegalArgument);
    }
    assert t.nodes[p].Record() == v[p];
    if t.nodes[p].parent != -1 {
      return Failed(IllegalArgument);
    }
    var other := OtherChild(t.nodes[p].children, node);
    if other.Fail? || other.value == -1 {
      return Failed(NullPointer);
    }
    var s := other.value;
    SetParentAt(t, s, -1);
    ghost var w1 := t.View();
    assert t.nodes[p].Record() == w1[p];
    RemoveFirstInRange(t.nodes[p].children, s, |t.nodes|);
    SetChildrenAt(t, p, RemoveFirst(t.nodes[p].children, s));
    ClearAt(t, s);
    r := Done;
  }

  method ConnectBranchToRoot(t: SeedbankTree, node: int, oldRoot: int, destTime: real) returns (r: Outcome)
    requires t.Wf() && 0 <= node < |t.nodes| && 0 <= oldRoot < |t.nodes|
    modifies t.nodes
    ensures t.Wf()
    ensures Rewired(r, t.View()) == ConnectedToRoot(old(t.View()), node, oldRoot, destTime)
  {
    ghost var v := t.View();
    assert t.nodes[node].Record() == v[node] && t.nodes[oldRoot].Record() == v[oldRoot];
    if t.nodes[node].parent == -1 || t.nodes[oldRoot].parent != -1 {
      return Failed(IllegalArgument);
    }
    var newRoot := t.nodes[node].parent;
    SetHeightAt(t, newRoot, destTime);
    SetParentAt(t, newRoot, -1);
    ghost var w := t.View();
    assert t.nodes[newRoot].Record() == w[newRoot];
    var cs := t.nodes[newRoot].children;
    if |cs| >= 1 {
      SettersInRange(cs, oldRoot, |t.nodes|);
    }
    if GetLeft(cs) == node {
      SetChildrenAt(t, newRoot, SetRight(cs, oldRoot));
    } else if GetRight(cs) == node {
      SetChildrenAt(t, newRoot, SetLeft(cs, oldRoot));
    }
    assert t.View() == SwapInFor(w, newRoot, node, oldRoot);
    SetParentAt(t, oldRoot, newRoot);
    r := Done;
  }
}
