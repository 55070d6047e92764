// What the surgeries do to a tree: which changes end up on which branch,
// which links move, which indicators are recalculated, what is refused,
// and that the time order along the branches involved is kept.

module SurgeryProperties {
  import opened Wrappers
  import opened Doubles
  import opened SeedbankNodes
  import opened SeedbankTrees
  import opened TreeSurgery

  /** node's parent has exactly two distinct children, node among them. */
  predicate BinaryParent(v: seq<NodeRec>, node: int)
    requires Shaped(v) && 0 <= node < |v|
  {
    var p := v[node].parent;
    p != -1 && |v[p].children| == 2 && v[p].children[0] != v[p].children[1] &&
    (v[p].children[0] == node || v[p].children[1] == node)
  }

  /** The other child of node's parent. */
  function Sister(v: seq<NodeRec>, node: int): (s: int)
    requires Shaped(v) && 0 <= node < |v| && BinaryParent(v, node)
    ensures 0 <= s < |v| && s != node && s in v[v[node].parent].children
    ensures OtherChild(v[v[node].parent].children, node) == Ok(s)
  {
    var cs := v[v[node].parent].children;
    if cs[0] == node then cs[1] else cs[0]
  }

  /** The time order of a sequence of times, spliced at a shared middle time. */
  lemma AscendingJoin(x: seq<real>, m: real, y: seq<real>)
    requires Ascending(x + [m]) && Ascending([m] + y)
    ensures Ascending(x + y)
  {
    var s := x + y;
    var a := x + [m];
    var b := [m] + y;
    forall i | 0 <= i < |s| - 1
      ensures s[i] <= s[i + 1]
    {
      if i + 1 < |x| {
        assert a[i] <= a[i + 1];
        assert s[i] == a[i] && s[i + 1] == a[i + 1];
      } else if i >= |x| {
        var j := i - |x| + 1;
        assert b[j] <= b[j + 1];
        assert s[i] == b[j] && s[i + 1] == b[j + 1];
      } else {
        assert a[i] <= a[i + 1];
        assert b[0] <= b[1];
        assert s[i] == a[i] && a[i + 1] == m && s[i + 1] == b[1];
      }
    }
  }

  /** Cutting ordered times at a time d that lies between their two ends keeps both parts ordered. */
  lemma AscendingSplit(h: real, t: seq<real>, top: real, d: real)
    requires Ascending([h] + t + [top]) && h <= d <= top
    ensures var k := FirstAbove(t, d);
      Ascending([h] + t[..k] + [d]) && Ascending([d] + t[k..] + [top])
  {
    var k := FirstAbove(t, d);
    var s := [h] + t + [top];
    var a := [h] + t[..k] + [d];
    forall i | 0 <= i < |a| - 1
      ensures a[i] <= a[i + 1]
    {
      if i + 1 < |a| - 1 {
        assert a[i] == s[i] && a[i + 1] == s[i + 1];
      } else if k > 0 {
        assert a[i] == t[k - 1];
      }
    }
    var b := [d] + t[k..] + [top];
    forall i | 0 <= i < |b| - 1
      ensures b[i] <= b[i + 1]
    {
      if i > 0 {
        assert b[i] == s[k + i] && b[i + 1] == s[k + i + 1];
      } else if k < |t| {
        assert b[1] == t[k];
      }
    }
  }

  /* ---------------------------------------------------------------------
   * disconnectBranch.
   */

  /** disconnectBranch refuses exactly when node or its parent is the root, and then changes nothing. */
  lemma DisconnectRefusal(v: seq<NodeRec>, node: int, ind: Option<Indicators>)
    requires Shaped(v) && 0 <= node < |v|
    requires ind.Some? ==> Fits(ind.value, v)
    ensures var r := Disconnected(v, node, ind);
      (r.outcome == Failed(IllegalArgument) <==> v[node].parent == -1 || v[v[node].parent].parent == -1) &&
      (r.outcome.Failed? ==> r.params == ind)
    ensures v[node].parent == -1 || v[v[node].parent].parent == -1 ==> Disconnected(v, node, ind).view == v
  {
    var p := v[node].parent;
    if p != -1 && v[p].parent != -1 && |v[p].children| > 0 {
      var m := MergedIntoSister(v, node);
      assert m.outcome != Failed(IllegalArgument);
    }
  }

  /** A binary parent whose parent is a third node, distinct from the node and its sister. */
  predicate Grandparented(v: seq<NodeRec>, node: int)
    requires Shaped(v) && 0 <= node < |v|
  {
    BinaryParent(v, node) &&
    var p := v[node].parent; var gp := v[p].parent;
    gp != -1 && gp != p && gp != node && gp != Sister(v, node)
  }

  /** The shared part of disconnectBranch, record by record. */
  lemma MergeShape(v: seq<NodeRec>, node: int)
    requires Shaped(v) && 0 <= node < |v| && NoSelfChild(v) && Grandparented(v, node)
    ensures var m := MergedIntoSister(v, node);
      var p := v[node].parent; var gp := v[p].parent; var s := Sister(v, node);
      m.outcome == Done && m.sister == s && m.parent == p && s != p && node != p &&
      m.view == v[s := Appended(v[s], v[p].changeTypes, v[p].changeTimes).(parent := gp)]
                 [gp := v[gp].(children := RemoveFirst(v[gp].children, p) + [s])]
  {
    var p := v[node].parent;
    assert v[p].children[0] != p && v[p].children[1] != p;
  }

  /**
   * disconnectBranch, record by record, on a binary parent with a
   * grandparent: the sister's changes are its old ones followed by the
   * parent's and its parent is the grandparent; the grandparent lists the
   * sister in place of the parent (at the end); the parent keeps its links
   * and loses its changes; only the lambda path also clears the node's
   * changes; every other node is unchanged.
   */
  lemma DisconnectShape(v: seq<NodeRec>, node: int, ind: Option<Indicators>)
    requires Shaped(v) && 0 <= node < |v| && NoSelfChild(v) && Grandparented(v, node)
    requires ind.Some? ==> Fits(ind.value, v)
    ensures var r := Disconnected(v, node, ind);
      var p := v[node].parent; var gp := v[p].parent; var s := Sister(v, node);
      var w1 := v[s := Appended(v[s], v[p].changeTypes, v[p].changeTimes).(parent := gp)]
                 [gp := v[gp].(children := RemoveFirst(v[gp].children, p) + [s])][p := Cleared(v[p])];
      r.outcome == Done &&
      r.view == if ind.None? then w1 else w1[node := Cleared(v[node])]
  {
    MergeShape(v, node);
  }

  /** Clearing one branch leaves what recalculateLambda finds on every other branch. */
  lemma ClearKeepsReading(w: seq<NodeRec>, k: int, i: int)
    requires Shaped(w) && 0 <= k < |w| && 0 <= i < |w| && i != k
    ensures DormantFraction(ClearIn(w, k), i) == DormantFraction(w, i)
    ensures Indicator(ClearIn(w, k), i) == Indicator(w, i)
  {
    var u := ClearIn(w, k);
    assert u[i] == w[i];
    if w[i].parent != -1 {
      assert u[w[i].parent].height == w[w[i].parent].height;
    }
    assert BranchLength(u, i) == BranchLength(w, i);
    assert BranchDormant(u, i) == BranchDormant(w, i);
  }

  /** Three recalculations in turn set exactly the three entries, each read from its own arena. */
  lemma RecalcThree(ind: Indicators, u1: seq<NodeRec>, a: int, u2: seq<NodeRec>, b: int, u3: seq<NodeRec>, c: int)
    requires Shaped(u1) && Shaped(u2) && Shaped(u3) && |u1| == |u2| == |u3| && Fits(ind, u1)
    requires 0 <= a < |u1| && 0 <= b < |u1| && 0 <= c < |u1| && a != b && b != c && a != c
    ensures var r := Recalc(Recalc(Recalc(ind, u1, a), u2, b), u3, c);
      Fits(r, u3) &&
      forall i :: 0 <= i < |u1| ==>
        r.lambdas[i] == (if i == a then DormantFraction(u1, a) else if i == b then DormantFraction(u2, b)
                         else if i == c then DormantFraction(u3, c) else ind.lambdas[i]) &&
        r.etas[i] == (if i == a then Indicator(u1, a) else if i == b then Indicator(u2, b)
                      else if i == c then Indicator(u3, c) else ind.etas[i])
  {
  }

  /**
   * On the lambda path the sister's, the parent's and the node's
   * indicators are what recalculateLambda finds on the final tree, and the
   * other entries are unchanged.
   */
  lemma DisconnectRecalculates(v: seq<NodeRec>, node: int, ind: Indicators)
    requires Shaped(v) && 0 <= node < |v| && NoSelfChild(v) && Grandparented(v, node) && Fits(ind, v)
    ensures var r := Disconnected(v, node, Some(ind)); var w := r.view;
      var p := v[node].parent; var s := Sister(v, node);
      r.params.Some? && Fits(r.params.value, w) &&
      forall i :: 0 <= i < |v| ==>
        r.params.value.lambdas[i] == (if i == s || i == p || i == node then DormantFraction(w, i) else ind.lambdas[i]) &&
        r.params.value.etas[i] == (if i == s || i == p || i == node then Indicator(w, i) else ind.etas[i])
  {
    var p := v[node].parent;
    var s := Sister(v, node);
    MergeShape(v, node);
    var m := MergedIntoSister(v, node);
    var w3 := ClearIn(m.view, p);
    var w4 := ClearIn(w3, node);
    assert Disconnected(v, node, Some(ind)) ==
      Surgery(Done, w4, Some(Recalc(Recalc(Recalc(ind, m.view, s), w3, p), w4, node)));
    RecalcThree(ind, m.view, s, w3, p, w4, node);
    ClearKeepsReading(m.view, p, s);
    ClearKeepsReading(w3, node, s);
    ClearKeepsReading(w3, node, p);
  }

  /** A branch extended by the ordered branch above it is ordered up to the top of that one. */
  lemma JoinedBranchOrdered(s: NodeRec, p: NodeRec, top: real)
    requires BranchTimesOrdered(p.height, s) && BranchTimesOrdered(top, p)
    ensures BranchTimesOrdered(top, Appended(s, p.changeTypes, p.changeTimes))
  {
    assert [p.height] + p.changeTimes + [top] == [p.height] + (p.changeTimes + [top]);
    AscendingJoin([s.height] + s.changeTimes, p.height, p.changeTimes + [top]);
    assert [s.height] + (s.changeTimes + p.changeTimes) + [top] ==
           ([s.height] + s.changeTimes) + (p.changeTimes + [top]);
  }

  /** The sister's branch, extended by its old parent's, stays ordered when both were. */
  lemma DisconnectKeepsOrder(v: seq<NodeRec>, node: int, ind: Option<Indicators>)
    requires Shaped(v) && 0 <= node < |v| && NoSelfChild(v) && Grandparented(v, node)
    requires ind.Some? ==> Fits(ind.value, v)
    requires var p := v[node].parent;
      BranchTimesOrdered(v[p].height, v[Sister(v, node)]) && BranchTimesOrdered(v[v[p].parent].height, v[p])
    ensures var w := Disconnected(v, node, ind).view; var s := Sister(v, node);
      BranchTimesOrdered(w[w[s].parent].height, w[s])
  {
    var p := v[node].parent;
    var gp := v[p].parent;
    var s := Sister(v, node);
    DisconnectShape(v, node, ind);
    var w := Disconnected(v, node, ind).view;
    assert w[s] == Appended(v[s], v[p].changeTypes, v[p].changeTimes).(parent := gp);
    assert w[gp].height == v[gp].height;
    JoinedBranchOrdered(v[s], v[p], v[gp].height);
  }

  /* ---------------------------------------------------------------------
   * connectBranch.
   */

  /**
   * connectBranch refuses when node or dest is the root, and then changes
   * nothing; on the plain path it also refuses when dest's final type after
   * the split is not 0 or 1. (dest is never node's parent: both callers
   * rule that out.)
   */
  lemma ConnectRefusal(v: seq<NodeRec>, node: int, dest: int, destTime: real, ind: Option<Indicators>)
    requires Shaped(v) && 0 <= node < |v| && 0 <= dest < |v| && dest != v[node].parent
    requires ind.Some? ==> Fits(ind.value, v)
    ensures var r := Connected(v, node, dest, destTime, ind);
      var k := FirstAbove(v[dest].changeTimes, destTime);
      var ft := FinalType(v[dest].nodeType, v[dest].changeTypes[..k]);
      (r.outcome == Failed(IllegalArgument) <==>
         v[node].parent == -1 || v[dest].parent == -1 || (ind.None? && ft != 0 && ft != 1)) &&
      (r.outcome.Done? || r.outcome == Failed(IllegalArgument)) &&
      (r.params.Some? <==> ind.Some?)
    ensures v[node].parent == -1 || v[dest].parent == -1 ==>
      Connected(v, node, dest, destTime, ind).view == v && Connected(v, node, dest, destTime, ind).params == ind
  {
    if v[node].parent != -1 && v[dest].parent != -1 {
      var p := v[node].parent;
      var w4 := SplitAt(v, p, dest, destTime);
      var k := FirstAbove(v[dest].changeTimes, destTime);
      assert w4[dest].changeTypes == v[dest].changeTypes[..k];
    }
  }

  /**
   * The situation both callers set up: node and dest are not roots, dest
   * is neither node nor node's parent and its own parent is a further node,
   * and node's parent is binary and not node itself.
   */
  predicate Attachable(v: seq<NodeRec>, node: int, dest: int)
    requires Shaped(v) && 0 <= node < |v| && 0 <= dest < |v|
  {
    var p := v[node].parent; var dp := v[dest].parent;
    BinaryParent(v, node) && p != node && dp != -1 && dest != node && dest != p && dp != p && dp != dest && dp != node
  }

  /** A binary child list with the child that is not node replaced by dest. */
  function Swapped(cs: seq<int>, node: int, dest: int): seq<int>
    requires |cs| == 2
  {
    if cs[0] == node then [node, dest] else [dest, node]
  }

  /** The parent's record after connectBranch, before its type is set. */
  function SplitParent(v: seq<NodeRec>, node: int, dest: int, destTime: real): NodeRec
    requires Shaped(v) && 0 <= node < |v| && 0 <= dest < |v| && Attachable(v, node, dest)
  {
    var p := v[node].parent;
    var d := v[dest];
    var k := FirstAbove(d.changeTimes, destTime);
    v[p].(height := destTime, changeTypes := d.changeTypes[k..], changeTimes := d.changeTimes[k..],
          changeCount := d.changeCount - k, parent := d.parent, children := Swapped(v[p].children, node, dest))
  }

  /** The arena left by connectBranch apart from the parent's record. */
  function ConnectedRest(v: seq<NodeRec>, node: int, dest: int, destTime: real): seq<NodeRec>
    requires Shaped(v) && 0 <= node < |v| && 0 <= dest < |v| && Attachable(v, node, dest)
  {
    var p := v[node].parent;
    var dp := v[dest].parent;
    var d := v[dest];
    var k := FirstAbove(d.changeTimes, destTime);
    v[dest := Truncated(d, k).(parent := p)][dp := v[dp].(children := RemoveFirst(v[dp].children, dest) + [p])]
  }

  /**
   * connectBranch with lambdas, record by record: the parent moves to
   * destTime, takes dest's changes above destTime, hangs under dest's old
   * parent and has dest in place of its other child; dest keeps its changes
   * up to destTime and hangs under the parent; dest's old parent lists the
   * parent in place of dest (at the end); every other node is unchanged.
   */
  lemma ConnectShapeWithLambdas(v: seq<NodeRec>, node: int, dest: int, destTime: real, ind: Indicators)
    requires Shaped(v) && 0 <= node < |v| && 0 <= dest < |v| && Attachable(v, node, dest) && Fits(ind, v)
    ensures var r := Connected(v, node, dest, destTime, Some(ind));
      r.outcome == Done && r.params.Some? &&
      r.view == ConnectedRest(v, node, dest, destTime)[v[node].parent := SplitParent(v, node, dest, destTime)]
  {
    var p := v[node].parent;
    var d := v[dest];
    var k := FirstAbove(d.changeTimes, destTime);
    var np := Appended(Cleared(v[p].(height := destTime)), d.changeTypes[k..], d.changeTimes[k..]);
    var tr := Truncated(d, k);
    ConnectedWithLambdasView(v, node, dest, destTime, ind);
    calc {
      Connected(v, node, dest, destTime, Some(ind)).view;
      Attached(SplitAt(v, p, dest, destTime), p, node, dest);
      { SplitShape(v, p, dest, destTime); }
      Attached(v[p := np][dest := tr], p, node, dest);
      { SplitShape(v, p, dest, destTime); AttachAfterSplit(v, p, node, dest, np, tr); }
      v[dest := tr.(parent := p)][d.parent := v[d.parent].(children := RemoveFirst(v[d.parent].children, dest) + [p])]
       [p := np.(parent := d.parent, children := Swapped(np.children, node, dest))];
      { SplitParentIs(v, node, dest, destTime); }
      ConnectedRest(v, node, dest, destTime)[p := SplitParent(v, node, dest, destTime)];
    }
  }

  /** The lambda path of connectBranch is the re-attachment of the split arena. */
  lemma ConnectedWithLambdasView(v: seq<NodeRec>, node: int, dest: int, destTime: real, ind: Indicators)
    requires Shaped(v) && 0 <= node < |v| && 0 <= dest < |v| && Attachable(v, node, dest) && Fits(ind, v)
    ensures var r := Connected(v, node, dest, destTime, Some(ind));
      r.outcome == Done && r.params.Some? &&
      r.view == Attached(SplitAt(v, v[node].parent, dest, destTime), v[node].parent, node, dest)
  {
  }

  /** The parent's record built from the split one. */
  lemma SplitParentIs(v: seq<NodeRec>, node: int, dest: int, destTime: real)
    requires Shaped(v) && 0 <= node < |v| && 0 <= dest < |v| && Attachable(v, node, dest)
    ensures var p := v[node].parent; var d := v[dest]; var k := FirstAbove(d.changeTimes, destTime);
      var np := Appended(Cleared(v[p].(height := destTime)), d.changeTypes[k..], d.changeTimes[k..]);
      np.(parent := d.parent, children := Swapped(np.children, node, dest)) == SplitParent(v, node, dest, destTime) &&
      Truncated(d, k).parent == d.parent
  {
  }

  /**
   * connectBranch without lambdas: the same re-attachment, the parent also
   * taking dest's final type below destTime, when that type is 0 or 1;
   * otherwise the call fails with IllegalArgument (see ConnectRefusal).
   */
  lemma ConnectShapePlain(v: seq<NodeRec>, node: int, dest: int, destTime: real)
    requires Shaped(v) && 0 <= node < |v| && 0 <= dest < |v| && Attachable(v, node, dest)
    ensures var r := Connected(v, node, dest, destTime, None);
      var d := v[dest];
      var ft := FinalType(d.nodeType, d.changeTypes[..FirstAbove(d.changeTimes, destTime)]);
      (ft == 0 || ft == 1) ==>
        r.outcome == Done && r.params.None? &&
        r.view == ConnectedRest(v, node, dest, destTime)[v[node].parent := SplitParent(v, node, dest, destTime).(nodeType := ft)]
  {
    var p := v[node].parent;
    var d := v[dest];
    var k := FirstAbove(d.changeTimes, destTime);
    var ft := FinalType(d.nodeType, d.changeTypes[..k]);
    if ft == 0 || ft == 1 {
      var np := Appended(Cleared(v[p].(height := destTime)), d.changeTypes[k..], d.changeTimes[k..]);
      ConnectedPlainView(v, node, dest, destTime);
      AttachAfterSplit(v, p, node, dest, np.(nodeType := ft), Truncated(d, k));
      SplitParentIs(v, node, dest, destTime);
    }
  }

  /**
   * The plain path of connectBranch: after the split, dest's final type; when
   * it is 0 or 1 the parent takes it and the split arena is re-attached.
   */
  lemma ConnectedPlainView(v: seq<NodeRec>, node: int, dest: int, destTime: real)
    requires Shaped(v) && 0 <= node < |v| && 0 <= dest < |v| && Attachable(v, node, dest)
    ensures var r := Connected(v, node, dest, destTime, None);
      var p := v[node].parent; var d := v[dest]; var k := FirstAbove(d.changeTimes, destTime);
      var ft := FinalType(d.nodeType, d.changeTypes[..k]);
      var np := Appended(Cleared(v[p].(height := destTime)), d.changeTypes[k..], d.changeTimes[k..]);
      (ft == 0 || ft == 1) ==>
        r.outcome == Done && r.params.None? && Shaped(v[p := np.(nodeType := ft)][dest := Truncated(d, k)]) &&
        r.view == Attached(v[p := np.(nodeType := ft)][dest := Truncated(d, k)], p, node, dest)
  {
    var p := v[node].parent;
    var d := v[dest];
    var k := FirstAbove(d.changeTimes, destTime);
    var np := Appended(Cleared(v[p].(height := destTime)), d.changeTypes[k..], d.changeTimes[k..]);
    SplitShape(v, p, dest, destTime);
    assert d.Consistent() && Min(k, d.changeCount) == k;
    var ft := FinalType(d.nodeType, d.changeTypes[..k]);
    if ft == 0 || ft == 1 {
      TypedSplit(v, p, dest, np, Truncated(d, k), ft);
    }
  }

  /** Setting the parent's type after the split is the split with the typed parent record. */
  lemma TypedSplit(v: seq<NodeRec>, p: int, dest: int, np: NodeRec, tr: NodeRec, ft: int)
    requires 0 <= p < |v| && 0 <= dest < |v| && dest != p && Shaped(v[p := np][dest := tr])
    ensures TypeIn(v[p := np][dest := tr], p, ft) == v[p := np.(nodeType := ft)][dest := tr]
  {
    var u := v[p := np][dest := tr];
    assert u[p] == np;
    var a := TypeIn(u, p, ft);
    var b := v[p := np.(nodeType := ft)][dest := tr];
    assert forall i :: 0 <= i < |v| ==> a[i] == b[i];
  }

  /** Re-attachment after the parent and dest records have been replaced, as updates of the original arena. */
  lemma AttachAfterSplit(v: seq<NodeRec>, p: int, node: int, dest: int, np: NodeRec, tr: NodeRec)
    requires 0 <= p < |v| && 0 <= node < |v| && 0 <= dest < |v| && dest != p
    requires Shaped(v[p := np][dest := tr])
    requires |np.children| == 2 && np.children[0] != np.children[1] && (np.children[0] == node || np.children[1] == node)
    requires tr.parent != -1 && tr.parent != p && tr.parent != dest
    ensures var dp := tr.parent;
      Attached(v[p := np][dest := tr], p, node, dest) ==
        v[dest := tr.(parent := p)][dp := v[dp].(children := RemoveFirst(v[dp].children, dest) + [p])]
         [p := np.(parent := dp, children := Swapped(np.children, node, dest))]
  {
    var u := v[p := np][dest := tr];
    AttachShape(u, p, node, dest);
  }

  /** The split on its own, when dest is not the parent. */
  lemma SplitShape(v: seq<NodeRec>, p: int, dest: int, destTime: real)
    requires Shaped(v) && 0 <= p < |v| && 0 <= dest < |v| && dest != p
    ensures var d := v[dest]; var k := FirstAbove(d.changeTimes, destTime);
      SplitAt(v, p, dest, destTime) ==
        v[p := Appended(Cleared(v[p].(height := destTime)), d.changeTypes[k..], d.changeTimes[k..])]
         [dest := Truncated(d, k)]
  {
    var d := v[dest];
    var k := FirstAbove(d.changeTimes, destTime);
    var w1 := HeightIn(v, p, destTime);
    assert w1[dest] == d;
    var w2 := ClearIn(w1, p);
    assert w2[dest] == d;
    assert Suffix(d.changeTypes, k) == d.changeTypes[k..];
    assert Suffix(d.changeTimes, k) == d.changeTimes[k..];
    var w3 := AppendIn(w2, p, d.changeTypes[k..], d.changeTimes[k..]);
    assert w3 == v[p := Appended(Cleared(v[p].(height := destTime)), d.changeTypes[k..], d.changeTimes[k..])];
    assert SplitAt(v, p, dest, destTime) == TruncateIn(w3, dest, k);
  }

  /** The re-attachment on its own, on a binary parent and distinct nodes. */
  lemma AttachShape(u: seq<NodeRec>, p: int, node: int, dest: int)
    requires Shaped(u) && 0 <= p < |u| && 0 <= node < |u| && 0 <= dest < |u|
    requires |u[p].children| == 2 && u[p].children[0] != u[p].children[1]
    requires u[p].children[0] == node || u[p].children[1] == node
    requires u[dest].parent != -1 && u[dest].parent != p && u[dest].parent != dest && dest != p
    ensures var dp := u[dest].parent;
      Attached(u, p, node, dest) ==
        u[dp := u[dp].(children := RemoveFirst(u[dp].children, dest) + [p])]
         [p := u[p].(parent := dp, children := Swapped(u[p].children, node, dest))]
         [dest := u[dest].(parent := p)]
  {
    var dp := u[dest].parent;
    var cs := u[p].children;
    var w6 := Replaced(u, dp, dest, p);
    assert w6 == u[dp := u[dp].(children := RemoveFirst(u[dp].children, dest) + [p])][p := u[p].(parent := dp)];
    var w7 := ParentIn(w6, dest, p);
    assert w7[p].children == cs;
    if cs[0] == node {
      assert SetRight(cs, dest) == [node, dest];
    } else {
      assert GetLeft(cs) != node && GetRight(cs) == node;
      assert SetLeft(cs, dest) == [dest, node];
    }
    assert SwapInFor(w7, p, node, dest) == w7[p := w7[p].(children := Swapped(cs, node, dest))];
  }

  /**
   * Splitting dest's changes at destTime: dest keeps those up to destTime,
   * the parent gets the rest, decoupled at the first change above destTime;
   * the two lists put together are dest's list as it was, and two ordered
   * halves come out of an ordered branch that destTime falls on.
   */
  lemma SplitRecords(v: seq<NodeRec>, node: int, dest: int, destTime: real)
    requires Shaped(v) && 0 <= node < |v| && 0 <= dest < |v| && Attachable(v, node, dest)
    ensures var d := v[dest]; var top := v[d.parent].height;
      var tr := Truncated(d, FirstAbove(d.changeTimes, destTime)); var sp := SplitParent(v, node, dest, destTime);
      tr.changeTypes + sp.changeTypes == d.changeTypes && tr.changeTimes + sp.changeTimes == d.changeTimes &&
      tr.changeCount + sp.changeCount == d.changeCount && tr.Consistent() && sp.Consistent() &&
      (forall t :: t in tr.changeTimes ==> t <= destTime) &&
      (|sp.changeTimes| > 0 ==> sp.changeTimes[0] > destTime) &&
      sp.height == destTime && tr.height == d.height &&
      (BranchTimesOrdered(top, d) && d.height <= destTime <= top ==>
         BranchTimesOrdered(destTime, tr) && BranchTimesOrdered(top, sp))
  {
    var d := v[dest];
    var top := v[d.parent].height;
    var k := FirstAbove(d.changeTimes, destTime);
    assert d.Consistent() && Min(k, d.changeCount) == k;
    assert d.changeTypes[..k] + d.changeTypes[k..] == d.changeTypes;
    assert d.changeTimes[..k] + d.changeTimes[k..] == d.changeTimes;
    if BranchTimesOrdered(top, d) && d.height <= destTime <= top {
      AscendingSplit(d.height, d.changeTimes, top, destTime);
    }
  }

  /**
   * The four records connectBranch touches, after a successful call: dest
   * and the parent as the split left them (the parent typed on the plain
   * path), dest's old parent listing the parent, node as it was.
   */
  lemma ConnectRecords(v: seq<NodeRec>, node: int, dest: int, destTime: real, ind: Option<Indicators>)
    requires Shaped(v) && 0 <= node < |v| && 0 <= dest < |v| && Attachable(v, node, dest)
    requires ind.Some? ==> Fits(ind.value, v)
    ensures var r := Connected(v, node, dest, destTime, ind); var w := r.view;
      var p := v[node].parent; var d := v[dest]; var dp := d.parent;
      var k := FirstAbove(d.changeTimes, destTime); var sp := SplitParent(v, node, dest, destTime);
      r.outcome == Done ==>
        |w| == |v| && Shaped(w) &&
        w[dest] == Truncated(d, k).(parent := p) &&
        w[p] == (if ind.Some? then sp else sp.(nodeType := FinalType(d.nodeType, d.changeTypes[..k]))) &&
        w[dp] == v[dp].(children := RemoveFirst(v[dp].children, dest) + [p]) &&
        w[node] == v[node]
  {
    ConnectRefusal(v, node, dest, destTime, ind);
    if ind.Some? {
      ConnectRecordsWithLambdas(v, node, dest, destTime, ind.value);
    } else {
      ConnectRecordsPlain(v, node, dest, destTime);
    }
  }

  lemma ConnectRecordsWithLambdas(v: seq<NodeRec>, node: int, dest: int, destTime: real, ind: Indicators)
    requires Shaped(v) && 0 <= node < |v| && 0 <= dest < |v| && Attachable(v, node, dest) && Fits(ind, v)
    ensures var w := Connected(v, node, dest, destTime, Some(ind)).view;
      var p := v[node].parent; var d := v[dest]; var dp := d.parent;
      |w| == |v| && Shaped(w) &&
      w[dest] == Truncated(d, FirstAbove(d.changeTimes, destTime)).(parent := p) &&
      w[p] == SplitParent(v, node, dest, destTime) &&
      w[dp] == v[dp].(children := RemoveFirst(v[dp].children, dest) + [p]) &&
      w[node] == v[node]
  {
    ConnectShapeWithLambdas(v, node, dest, destTime, ind);
  }

  lemma ConnectRecordsPlain(v: seq<NodeRec>, node: int, dest: int, destTime: real)
    requires Shaped(v) && 0 <= node < |v| && 0 <= dest < |v| && Attachable(v, node, dest)
    ensures var r := Connected(v, node, dest, destTime, None); var w := r.view;
      var p := v[node].parent; var d := v[dest]; var dp := d.parent;
      var k := FirstAbove(d.changeTimes, destTime); var ft := FinalType(d.nodeType, d.changeTypes[..k]);
      (ft == 0 || ft == 1) ==>
        |w| == |v| && Shaped(w) &&
        w[dest] == Truncated(d, k).(parent := p) &&
        w[p] == SplitParent(v, node, dest, destTime).(nodeType := ft) &&
        w[dp] == v[dp].(children := RemoveFirst(v[dp].children, dest) + [p]) &&
        w[node] == v[node]
  {
    ConnectShapePlain(v, node, dest, destTime);
  }

  /**
   * After connectBranch, dest's changes up to destTime stay with dest and
   * the rest move to node's parent, which sits at destTime between dest and
   * dest's old parent: the two lists together give dest's old list.
   */
  lemma ConnectSplitsChanges(v: seq<NodeRec>, node: int, dest: int, destTime: real, ind: Option<Indicators>)
    requires Shaped(v) && 0 <= node < |v| && 0 <= dest < |v| && Attachable(v, node, dest)
    requires ind.Some? ==> Fits(ind.value, v)
    ensures var r := Connected(v, node, dest, destTime, ind); var w := r.view;
      var p := v[node].parent; var d := v[dest];
      r.outcome == Done ==>
        w[dest].changeTypes + w[p].changeTypes == d.changeTypes &&
        w[dest].changeTimes + w[p].changeTimes == d.changeTimes &&
        (forall t :: t in w[dest].changeTimes ==> t <= destTime) &&
        (|w[p].changeTimes| > 0 ==> w[p].changeTimes[0] > destTime) &&
        w[p].height == destTime && w[dest].height == d.height &&
        w[dest].parent == p && w[p].parent == d.parent && w[node].parent == p &&
        dest in w[p].children && node in w[p].children && p in w[d.parent].children
  {
    SplitRecords(v, node, dest, destTime);
    ConnectRecords(v, node, dest, destTime, ind);
  }

  /**
   * With dest's branch ordered and destTime on it, connectBranch leaves two
   * ordered branches: dest up to destTime, and the parent from destTime up
   * to dest's old parent.
   */
  lemma ConnectKeepsOrder(v: seq<NodeRec>, node: int, dest: int, destTime: real, ind: Option<Indicators>)
    requires Shaped(v) && 0 <= node < |v| && 0 <= dest < |v| && Attachable(v, node, dest)
    requires ind.Some? ==> Fits(ind.value, v)
    requires var d := v[dest]; var top := v[d.parent].height;
      BranchTimesOrdered(top, d) && d.height <= destTime <= top
    ensures var r := Connected(v, node, dest, destTime, ind); var w := r.view; var p := v[node].parent;
      r.outcome == Done ==>
        BranchTimesOrdered(w[w[dest].parent].height, w[dest]) && BranchTimesOrdered(w[w[p].parent].height, w[p])
  {
    SplitRecords(v, node, dest, destTime);
    ConnectRecords(v, node, dest, destTime, ind);
  }

  /**
   * On the lambda path dest's, the parent's and the node's indicators are
   * what recalculateLambda finds on the re-attached tree, and the other
   * entries are unchanged.
   */
  lemma ConnectRecalculates(v: seq<NodeRec>, node: int, dest: int, destTime: real, ind: Indicators)
    requires Shaped(v) && 0 <= node < |v| && 0 <= dest < |v| && Attachable(v, node, dest) && Fits(ind, v)
    ensures var r := Connected(v, node, dest, destTime, Some(ind)); var w := r.view; var p := v[node].parent;
      r.params.Some? && Fits(r.params.value, w) &&
      forall i :: 0 <= i < |v| ==>
        r.params.value.lambdas[i] == (if i == dest || i == p || i == node then DormantFraction(w, i) else ind.lambdas[i]) &&
        r.params.value.etas[i] == (if i == dest || i == p || i == node then Indicator(w, i) else ind.etas[i])
  {
    var p := v[node].parent;
    var w := Attached(SplitAt(v, p, dest, destTime), p, node, dest);
    ConnectedWithLambdasView(v, node, dest, destTime, ind);
    assert Connected(v, node, dest, destTime, Some(ind)).params ==
      Some(Recalc(Recalc(Recalc(ind, w, dest), w, p), w, node));
    RecalcThree(ind, w, dest, w, p, w, node);
  }

  /* ---------------------------------------------------------------------
   * disconnectBranchFromRoot and connectBranchToRoot.
   */

  /**
   * disconnectBranchFromRoot refuses when node is the root or its parent is
   * not, and then changes nothing.
   */
  lemma DisconnectFromRootRefusal(v: seq<NodeRec>, node: int)
    requires Shaped(v) && 0 <= node < |v|
    ensures var r := DisconnectedFromRoot(v, node);
      (r.outcome == Failed(IllegalArgument) <==> v[node].parent == -1 || v[v[node].parent].parent != -1) &&
      (!r.outcome.Done? ==> r.view == v)
  {
  }

  /**
   * disconnectBranchFromRoot under a binary root: the sister becomes a root
   * with no changes, the old root keeps node as its only child, and every
   * other node is unchanged.
   */
  lemma DisconnectFromRootShape(v: seq<NodeRec>, node: int)
    requires Shaped(v) && 0 <= node < |v| && NoSelfChild(v) && BinaryParent(v, node)
    requires v[v[node].parent].parent == -1
    ensures var r := DisconnectedFromRoot(v, node); var p := v[node].parent; var s := Sister(v, node);
      r.outcome == Done &&
      r.view == v[s := Cleared(v[s]).(parent := -1)][p := v[p].(children := [node])]
  {
    var p := v[node].parent;
    var s := Sister(v, node);
    var cs := v[p].children;
    assert RemoveFirst(cs, s) == [node] by {
      if cs[0] == s {
        assert RemoveFirst(cs, s) == cs[1..];
      } else {
        assert RemoveFirst(cs, s) == [cs[0]] + RemoveFirst(cs[1..], s);
        assert RemoveFirst(cs[1..], s) == [];
      }
    }
    assert s != p by {
      assert s == cs[0] || s == cs[1];
    }
    var w1 := ParentIn(v, s, -1);
    var w2 := ChildrenIn(w1, p, [node]);
    assert w2[s] == v[s].(parent := -1);
    assert ClearIn(w2, s) == v[s := Cleared(v[s]).(parent := -1)][p := v[p].(children := [node])];
  }

  /**
   * connectBranchToRoot refuses exactly when node is the root or oldRoot is
   * not, and then changes nothing; otherwise it succeeds.
   */
  lemma ConnectToRootRefusal(v: seq<NodeRec>, node: int, oldRoot: int, destTime: real)
    requires Shaped(v) && 0 <= node < |v| && 0 <= oldRoot < |v|
    ensures var r := ConnectedToRoot(v, node, oldRoot, destTime);
      (r.outcome == Failed(IllegalArgument) <==> v[node].parent == -1 || v[oldRoot].parent != -1) &&
      (r.outcome.Done? || r.outcome == Failed(IllegalArgument)) &&
      (!r.outcome.Done? ==> r.view == v)
  {
  }

  /**
   * connectBranchToRoot on a binary parent: the parent becomes the root at
   * destTime with oldRoot in place of node's sister, oldRoot hangs under it,
   * and every other node is unchanged.
   */
  lemma ConnectToRootShape(v: seq<NodeRec>, node: int, oldRoot: int, destTime: real)
    requires Shaped(v) && 0 <= node < |v| && 0 <= oldRoot < |v| && BinaryParent(v, node)
    requires v[oldRoot].parent == -1 && oldRoot != v[node].parent
    ensures var r := ConnectedToRoot(v, node, oldRoot, destTime); var p := v[node].parent;
      r.outcome == Done &&
      r.view == v[p := v[p].(height := destTime, parent := -1, children := Swapped(v[p].children, node, oldRoot))]
                 [oldRoot := v[oldRoot].(parent := p)]
  {
    var p := v[node].parent;
    var cs := v[p].children;
    var w := ParentIn(HeightIn(v, p, destTime), p, -1);
    assert w == v[p := v[p].(height := destTime, parent := -1)];
    if cs[0] == node {
      assert SetRight(cs, oldRoot) == [node, oldRoot];
    } else {
      assert GetLeft(cs) != node && GetRight(cs) == node;
      assert SetLeft(cs, oldRoot) == [oldRoot, node];
    }
    assert SwapInFor(w, p, node, oldRoot) == w[p := w[p].(children := Swapped(cs, node, oldRoot))];
  }

  /* ---------------------------------------------------------------------
   * Binary time trees: the situation the operators rewire.
   */

  /**
   * A binary time tree: children point back at their parent and every
   * parent lists its children, each node has no children or two distinct
   * ones, and each parent is strictly higher than its children.
   */
  predicate TimeTree(v: seq<NodeRec>)
    requires Shaped(v)
  {
    ParentsConsistent(v) &&
    (forall i :: 0 <= i < |v| && v[i].parent != -1 ==> i in v[v[i].parent].children) &&
    (forall i :: 0 <= i < |v| ==> IsLeaf(v[i]) || (|v[i].children| == 2 && v[i].children[0] != v[i].children[1])) &&
    (forall i :: 0 <= i < |v| && v[i].parent != -1 ==> v[i].height < v[v[i].parent].height)
  }

  /** In a time tree no node is its own child. */
  lemma TimeTreeNoSelfChild(v: seq<NodeRec>)
    requires Shaped(v) && TimeTree(v)
    ensures NoSelfChild(v)
  {
    forall i, k | 0 <= i < |v| && 0 <= k < |v[i].children|
      ensures v[i].children[k] != i
    {
      var c := v[i].children[k];
      assert v[c].parent == i;
    }
  }

  /** In a time tree a node whose parent is not the root is grandparented. */
  lemma TimeTreeGrandparented(v: seq<NodeRec>, node: int)
    requires Shaped(v) && TimeTree(v) && 0 <= node < |v|
    requires v[node].parent != -1 && v[v[node].parent].parent != -1
    ensures Grandparented(v, node)
  {
    var p := v[node].parent;
    assert node in v[p].children;
    var s := Sister(v, node);
    assert v[s].parent == p;
  }

  /** The records disconnectBranch leaves on the node, its parent and a dest outside the three touched nodes' parents. */
  lemma DisconnectedRecords(v: seq<NodeRec>, node: int, dest: int, ind: Option<Indicators>)
    requires Shaped(v) && 0 <= node < |v| && 0 <= dest < |v| && NoSelfChild(v) && Grandparented(v, node)
    requires ind.Some? ==> Fits(ind.value, v)
    requires dest != Sister(v, node) && dest != v[node].parent && dest != node
    ensures var r := Disconnected(v, node, ind); var w := r.view;
      var p := v[node].parent; var s := Sister(v, node);
      r.outcome == Done && w[node].parent == p && w[p].children == v[p].children &&
      w[s].parent == v[p].parent && w[dest].parent == v[dest].parent &&
      w[s].changeTypes == v[s].changeTypes + v[p].changeTypes && w[s].changeTimes == v[s].changeTimes + v[p].changeTimes &&
      w[dest].changeTypes == v[dest].changeTypes && w[dest].changeTimes == v[dest].changeTimes
  {
    DisconnectShape(v, node, ind);
    var p := v[node].parent; var gp := v[p].parent; var s := Sister(v, node);
    assert s != p && node != p;
    var w1 := v[s := Appended(v[s], v[p].changeTypes, v[p].changeTimes).(parent := gp)]
               [gp := v[gp].(children := RemoveFirst(v[gp].children, p) + [s])][p := Cleared(v[p])];
    assert w1[node].parent == p && w1[p].children == v[p].children;
    assert w1[s].parent == gp && w1[dest].parent == v[dest].parent;
    assert w1[s].changeTimes == v[s].changeTimes + v[p].changeTimes && w1[dest].changeTimes == v[dest].changeTimes;
  }

  /**
   * In a time tree, disconnecting a grandparented node leaves it ready to be
   * connected above any dest whose parent is a further node other than the
   * old parent: the node keeps its parent, the sister hangs from the
   * grandparent, and dest keeps its parent.
   */
  lemma DisconnectedAttachable(v: seq<NodeRec>, node: int, dest: int, ind: Option<Indicators>)
    requires Shaped(v) && TimeTree(v) && 0 <= node < |v| && 0 <= dest < |v| && Grandparented(v, node)
    requires ind.Some? ==> Fits(ind.value, v)
    requires var p := v[node].parent; var dp := v[dest].parent;
      dp != -1 && dest != node && dest != p && dp != p && dp != node
    ensures var r := Disconnected(v, node, ind); var w := r.view;
      var p := v[node].parent; var s := Sister(v, node);
      r.outcome == Done && Attachable(w, node, dest) &&
      w[node].parent == p && w[s].parent == v[p].parent && w[dest].parent == v[dest].parent &&
      w[s].changeTypes == v[s].changeTypes + v[p].changeTypes && w[s].changeTimes == v[s].changeTimes + v[p].changeTimes &&
      w[dest].changeTypes == v[dest].changeTypes && w[dest].changeTimes == v[dest].changeTimes
  {
    TimeTreeNoSelfChild(v);
    var p := v[node].parent;
    var s := Sister(v, node);
    assert v[s].parent == p;
    assert v[v[dest].parent].height > v[dest].height;
    DisconnectedRecords(v, node, dest, ind);
  }

  /** ConnectedRest leaves the parent link, height and changes of every node but dest. */
  lemma RestKeepsOthers(v: seq<NodeRec>, node: int, dest: int, destTime: real, i: int)
    requires Shaped(v) && 0 <= node < |v| && 0 <= dest < |v| && Attachable(v, node, dest)
    requires 0 <= i < |v| && i != dest
    ensures var w := ConnectedRest(v, node, dest, destTime);
      w[i].parent == v[i].parent && w[i].height == v[i].height &&
      w[i].changeTypes == v[i].changeTypes && w[i].changeTimes == v[i].changeTimes
  {
  }

  /** connectBranch leaves the parent link, height and changes of every node but dest and the node's parent. */
  lemma ConnectKeepsOthers(v: seq<NodeRec>, node: int, dest: int, destTime: real, ind: Option<Indicators>)
    requires Shaped(v) && 0 <= node < |v| && 0 <= dest < |v| && Attachable(v, node, dest)
    requires ind.Some? ==> Fits(ind.value, v)
    ensures var r := Connected(v, node, dest, destTime, ind);
      r.outcome == Done ==>
        forall i :: 0 <= i < |v| && i != dest && i != v[node].parent ==>
          r.view[i].parent == v[i].parent && r.view[i].height == v[i].height &&
          r.view[i].changeTypes == v[i].changeTypes && r.view[i].changeTimes == v[i].changeTimes
  {
    ConnectRefusal(v, node, dest, destTime, ind);
    if ind.Some? {
      ConnectShapeWithLambdas(v, node, dest, destTime, ind.value);
    } else {
      ConnectShapePlain(v, node, dest, destTime);
    }
    var r := Connected(v, node, dest, destTime, ind);
    forall i | 0 <= i < |v| && i != dest && i != v[node].parent && r.outcome == Done
      ensures r.view[i].parent == v[i].parent && r.view[i].height == v[i].height
      ensures r.view[i].changeTypes == v[i].changeTypes && r.view[i].changeTimes == v[i].changeTimes
    {
      RestKeepsOthers(v, node, dest, destTime, i);
    }
  }
}
