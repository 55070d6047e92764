// SeedbankTreeScale: scale the whole tree by one factor f drawn from
// [1/scaleFactor, scaleFactor]. Every type-change time is multiplied by f,
// and so is every internal node height; leaves keep their sampling
// heights. The log Hastings ratio is -2 log f plus log f per scaled value.
// A shrinking scaling (f < 1) is rejected when a leaf ends up above its
// parent or above its first change; the rejected tree stays scaled.
//
// The draw u stands for Randomizer.nextDouble.

module TreeScale {
  import opened Wrappers
  import opened Doubles
  import opened SeedbankNodes
  import opened SeedbankTrees
  import opened TreeSurgery
  import opened UniformNodes
  import PairMoves

  /** Every change time multiplied by f. */
  function Times(f: real, times: seq<real>): (r: seq<real>)
    ensures |r| == |times| && forall j :: 0 <= j < |times| ==> r[j] == f * times[j]
  {
    seq(|times|, j requires 0 <= j < |times| => f * times[j])
  }

  /** A node after the scaling: its changes scaled, and its height too unless it is a leaf. */
  function ScaledNode(n: NodeRec, f: real): NodeRec
  {
    n.(height := if IsLeaf(n) then n.height else n.height * f, changeTimes := Times(f, n.changeTimes))
  }

  /** The arena after one of the two loops: the leaves (leaves == true) or the internal nodes scaled. */
  function ScaledWhere(v: seq<NodeRec>, f: real, leaves: bool): (w: seq<NodeRec>)
    ensures |w| == |v|
  {
    seq(|v|, i requires 0 <= i < |v| => if IsLeaf(v[i]) == leaves then ScaledNode(v[i], f) else v[i])
  }

  /** The arena after both loops. */
  function Scaled(v: seq<NodeRec>, f: real): (w: seq<NodeRec>)
    ensures |w| == |v|
  {
    seq(|v|, i requires 0 <= i < |v| => ScaledNode(v[i], f))
  }

  /** The two loops touch disjoint nodes, and together scale every node. */
  lemma ScaledInTwoLoops(v: seq<NodeRec>, f: real)
    ensures ScaledWhere(ScaledWhere(v, f, true), f, false) == Scaled(v, f)
  {
    var w := ScaledWhere(v, f, true);
    assert forall i :: 0 <= i < |v| ==> IsLeaf(w[i]) == IsLeaf(v[i]);
  }

  /** x added n times onto acc, one addition after the other. */
  function Repeated(acc: Double, x: Double, n: nat): Double
  {
    if n == 0 then acc else Add(Repeated(acc, x, n - 1), x)
  }

  lemma {:induction false} RepeatedSplit(acc: Double, x: Double, m: nat, n: nat)
    ensures Repeated(Repeated(acc, x, m), x, n) == Repeated(acc, x, m + n)
    decreases n
  {
    if n > 0 {
      RepeatedSplit(acc, x, m, n - 1);
    }
  }

  /** A finite value added n times onto a finite value gives the finite sum. */
  lemma {:induction false} RepeatedFinite(a: real, x: real, n: nat)
    ensures Repeated(Finite(a), Finite(x), n) == Finite(a + n as real * x)
    decreases n
  {
    if n > 0 {
      RepeatedFinite(a, x, n - 1);
    }
  }

  /** The number of values the loop over the leaves (leaves == true) or over the internal nodes scales among the nodes of v. */
  function ScaledCount(v: seq<NodeRec>, leaves: bool): nat
  {
    if |v| == 0 then 0
    else
      var n := v[|v| - 1];
      ScaledCount(v[..|v| - 1], leaves)
      + (if IsLeaf(n) != leaves then 0 else if leaves then |n.changeTimes| else 1 + |n.changeTimes|)
  }

  /**
   * The rejection loop from node `from` on, over the leaves of the scaled
   * arena: a leaf without a parent raises NullPointerException; a leaf
   * above its parent, or above its first change, rejects; None when every
   * leaf passes.
   */
  function Checked(w: seq<NodeRec>, from: int): (r: Option<Result<Double>>)
    requires Shaped(w) && 0 <= from <= |w|
    ensures r.Some? ==> r.value == Fail(NullPointer) || r.value == Ok(NegInf)
    decreases |w| - from
  {
    if from == |w| then None
    else if !IsLeaf(w[from]) then Checked(w, from + 1)
    else if w[from].parent == -1 then Some(Fail(NullPointer))
    else if w[w[from].parent].height < w[from].height then Some(Ok(NegInf))
    else if w[from].changeCount > 0 && w[from].changeTimes[0] < w[from].height then Some(Ok(NegInf))
    else Checked(w, from + 1)
  }

  /** Scaling keeps every reference and count. */
  lemma ScaledShaped(v: seq<NodeRec>, f: real)
    requires Shaped(v)
    ensures Shaped(Scaled(v, f))
    ensures forall i :: 0 <= i < |v| ==> Scaled(v, f)[i] == ScaledNode(v[i], f)
  {
  }

  /** The log Hastings ratio: -2 log f, then log f per scaled value, the leaves' changes first. */
  function LogRatio(v: seq<NodeRec>, logf: Double): Double
  {
    Repeated(Repeated(Mul(logf, -2.0), logf, ScaledCount(v, true)), logf, ScaledCount(v, false))
  }

  /** SeedbankTreeScale.proposal: the factor, the scaled arena, the ratio, and the check when shrinking. */
  function Scaling(v: seq<NodeRec>, scale: real, u: real, ln: real -> real): (r: PairMoves.Edited)
    requires Shaped(v) && scale != 0.0
  {
    var f := Factor(u, scale);
    var logf := LogOf(ln, f);
    var hr := LogRatio(v, logf);
    var w := Scaled(v, f);
    ScaledShaped(v, f);
    var checked := if f < 1.0 then Checked(w, 0) else None;
    PairMoves.Edited(if checked.Some? then checked.value else Ok(hr), w)
  }

  method Proposal(t: SeedbankTree, scale: real, u: real, ln: real -> real) returns (r: Result<Double>)
    requires t.Wf() && scale != 0.0
    modifies t.nodes
    ensures t.Wf()
    ensures var s := Scaling(old(t.View()), scale, u, ln);
      r == s.result && t.View() == s.view
  {
    var f := Factor(u, scale);
    var logf := LogOf(ln, f);
    var logHR := ScaleAll(t, f, logf);
    if f < 1.0 {
      var checked := Check(t);
      if checked.Some? {
        return checked.value;
      }
    }
    r := Ok(logHR);
  }

  /** Both loops of proposal(): the leaves' changes, then the internal nodes, each adding log f per value. */
  method ScaleAll(t: SeedbankTree, f: real, logf: Double) returns (hr: Double)
    requires t.Wf()
    modifies t.nodes
    ensures t.Wf() && t.View() == Scaled(old(t.View()), f)
    ensures hr == LogRatio(old(t.View()), logf)
  {
    ghost var v := t.View();
    hr := Mul(logf, -2.0);
    hr := ScaleLoop(t, f, logf, hr, true);
    ghost var v1 := t.View();
    hr := ScaleLoop(t, f, logf, hr, false);
    ScaledInTwoLoops(v, f);
    assert ScaledCount(v1, false) == ScaledCount(v, false) by {
      SameScaledCount(v, f);
    }
  }

  /** Scaling the leaves changes no leaf status and no count of internal events. */
  lemma {:induction false} SameScaledCount(v: seq<NodeRec>, f: real)
    ensures ScaledCount(ScaledWhere(v, f, true), false) == ScaledCount(v, false)
    decreases |v|
  {
    if |v| > 0 {
      var n := |v| - 1;
      assert ScaledWhere(v, f, true)[..n] == ScaledWhere(v[..n], f, true);
      SameScaledCount(v[..n], f);
    }
  }

  /** The arena part-way through a loop: the nodes before i that the loop scales are scaled. */
  function Partly(v: seq<NodeRec>, f: real, leaves: bool, i: int): (w: seq<NodeRec>)
    ensures |w| == |v|
  {
    seq(|v|, j requires 0 <= j < |v| => if j < i && IsLeaf(v[j]) == leaves then ScaledNode(v[j], f) else v[j])
  }

  /** The number of values one node adds to its loop's count. */
  function NodeCount(n: NodeRec, leaves: bool): nat
  {
    if IsLeaf(n) != leaves then 0 else if leaves then |n.changeTimes| else 1 + |n.changeTimes|
  }

  lemma LoopStep(v: seq<NodeRec>, f: real, leaves: bool, i: int, cur: seq<NodeRec>)
    requires 0 <= i < |v| && cur == Partly(v, f, leaves, i)
    ensures cur[i] == v[i]
    ensures IsLeaf(v[i]) == leaves ==> cur[i := ScaledNode(v[i], f)] == Partly(v, f, leaves, i + 1)
    ensures IsLeaf(v[i]) != leaves ==> cur == Partly(v, f, leaves, i + 1)
    ensures ScaledCount(v[..i + 1], leaves) == ScaledCount(v[..i], leaves) + NodeCount(v[i], leaves)
  {
    assert v[..i + 1][..i] == v[..i];
    var a := Partly(v, f, leaves, i + 1);
    if IsLeaf(v[i]) == leaves {
      forall j | 0 <= j < |v| ensures cur[i := ScaledNode(v[i], f)][j] == a[j] {
      }
    } else {
      forall j | 0 <= j < |v| ensures cur[j] == a[j] {
      }
    }
  }

  lemma LoopEnd(v: seq<NodeRec>, f: real, leaves: bool)
    ensures Partly(v, f, leaves, |v|) == ScaledWhere(v, f, leaves)
    ensures Partly(v, f, leaves, 0) == v
    ensures v[..|v|] == v
  {
  }

  /**
   * One of the two loops of proposal(): over the leaves (leaves == true)
   * or over the internal nodes, each change time of each node multiplied
   * by f, and each internal height too, adding log f per value.
   */
  method ScaleLoop(t: SeedbankTree, f: real, logf: Double, acc: Double, leaves: bool) returns (hr: Double)
    requires t.Wf()
    modifies t.nodes
    ensures t.Wf()
    ensures t.View() == ScaledWhere(old(t.View()), f, leaves)
    ensures hr == Repeated(acc, logf, ScaledCount(old(t.View()), leaves))
  {
    ghost var v := t.View();
    LoopEnd(v, f, leaves);
    hr := acc;
    ghost var done := 0;
    var i := 0;
    while i < |t.nodes|
      invariant 0 <= i <= |t.nodes| == |v| && t.Wf()
      invariant t.View() == Partly(v, f, leaves, i)
      invariant done == ScaledCount(v[..i], leaves)
      invariant hr == Repeated(acc, logf, done)
    {
      hr, done := ScaleStep(t, f, logf, acc, leaves, i, v, hr, done);
      i := i + 1;
    }
  }

  /** One pass of a loop: node i scaled when the loop is over its kind, with its values counted. */
  method ScaleStep(t: SeedbankTree, f: real, logf: Double, acc: Double, leaves: bool, i: int,
                   ghost v: seq<NodeRec>, hr0: Double, ghost done0: nat) returns (hr: Double, ghost done: nat)
    requires t.Wf() && 0 <= i < |t.nodes| == |v|
    requires t.View() == Partly(v, f, leaves, i)
    requires done0 == ScaledCount(v[..i], leaves) && hr0 == Repeated(acc, logf, done0)
    modifies t.nodes
    ensures t.Wf() && t.View() == Partly(v, f, leaves, i + 1)
    ensures done == ScaledCount(v[..i + 1], leaves) && hr == Repeated(acc, logf, done)
  {
    LoopStep(v, f, leaves, i, t.View());
    hr, done := hr0, done0;
    var nd := t.nodes[i];
    assert nd.Record() == v[i];
    var leaf := |nd.children| == 0;
    if leaf == leaves {
      ghost var n := NodeCount(v[i], leaves);
      hr := ScaleNodeAt(t, i, f, logf, hr, !leaf, n);
      RepeatedSplit(acc, logf, done, n);
      done := done + n;
    }
  }

  /** One node scaled: its height when withHeight (adding log f), then each change time (adding log f each). */
  method ScaleNodeAt(t: SeedbankTree, k: int, f: real, logf: Double, acc: Double, withHeight: bool, ghost n: nat)
    returns (hr: Double)
    requires t.Wf() && 0 <= k < |t.nodes|
    requires withHeight <==> !IsLeaf(t.View()[k])
    requires n == (if withHeight then 1 else 0) + |t.View()[k].changeTimes|
    modifies t.nodes[k]
    ensures t.Wf()
    ensures t.View() == old(t.View())[k := ScaledNode(old(t.View())[k], f)]
    ensures hr == Repeated(acc, logf, n)
  {
    ghost var v := t.View();
    var nd := t.nodes[k];
    assert nd.Record() == v[k];
    hr := acc;
    if withHeight {
      nd.height := nd.height * f;
      hr := Add(hr, logf);
    }
    hr := ScaleChanges(nd, f, logf, hr);
    RepeatedSplit(acc, logf, if withHeight then 1 else 0, |v[k].changeTimes|);
    assert nd.Record() == ScaledNode(v[k], f);
    forall i | 0 <= i < |t.nodes| ensures t.View()[i] == v[k := nd.Record()][i] {
      if i != k {
        assert t.nodes[i] != t.nodes[k];
      }
    }
    ShapedUpdate(v, k, nd.Record());
  }

  /** The inner loop: each change time of the node multiplied by f, adding log f each. */
  method ScaleChanges(nd: SeedbankNode, f: real, logf: Double, acc: Double) returns (hr: Double)
    requires nd.Valid()
    modifies nd
    ensures nd.Valid()
    ensures nd.Record() == old(nd.Record()).(changeTimes := Times(f, old(nd.changeTimes)))
    ensures hr == Repeated(acc, logf, |old(nd.changeTimes)|)
  {
    ghost var r0 := nd.Record();
    ghost var ct := nd.changeTimes;
    RescaledEnds(f, ct);
    hr := acc;
    var c := 0;
    while c < nd.nTypeChanges
      invariant 0 <= c <= |ct| == nd.nTypeChanges && nd.Valid()
      invariant nd.Record() == r0.(changeTimes := Rescaled(f, ct, c))
      invariant hr == Repeated(acc, logf, c)
    {
      var oldTime := nd.changeTimes[c];
      ghost var before := nd.Record();
      RescaledStep(f, ct, c, before.changeTimes, f * oldTime);
      var _ := nd.SetChangeTime(c, f * oldTime);
      hr := Add(hr, logf);
      c := c + 1;
    }
  }

  /** The change times part-way through the inner loop: those before c multiplied by f. */
  function Rescaled(f: real, ct: seq<real>, c: int): (r: seq<real>)
    ensures |r| == |ct|
  {
    seq(|ct|, j requires 0 <= j < |ct| => if j < c then f * ct[j] else ct[j])
  }

  lemma RescaledStep(f: real, ct: seq<real>, c: int, cur: seq<real>, x: real)
    requires 0 <= c < |ct| && cur == Rescaled(f, ct, c)
    ensures cur[c] == ct[c]
    ensures x == f * cur[c] ==> cur[c := x] == Rescaled(f, ct, c + 1)
  {
    if x == f * cur[c] {
      var a := Rescaled(f, ct, c + 1);
      forall j | 0 <= j < |ct| ensures cur[c := x][j] == a[j] {
      }
    }
  }

  lemma RescaledEnds(f: real, ct: seq<real>)
    ensures Rescaled(f, ct, 0) == ct && Rescaled(f, ct, |ct|) == Times(f, ct)
  {
  }

  /** The rejection loop of proposal(); the tree is only read. */
  method Check(t: SeedbankTree) returns (r: Option<Result<Double>>)
    requires t.Wf()
    ensures r == Checked(t.View(), 0)
  {
    ghost var w := t.View();
    var i := 0;
    while i < |t.nodes|
      invariant 0 <= i <= |t.nodes|
      invariant Checked(w, i) == Checked(w, 0)
    {
      var leaf := t.nodes[i];
      assert leaf.Record() == w[i];
      if |leaf.children| == 0 {
        if leaf.parent == -1 {
          return Some(Fail(NullPointer));
        }
        assert t.nodes[leaf.parent].Record() == w[leaf.parent];
        if t.nodes[leaf.parent].height < leaf.height {
          return Some(Ok(NegInf));
        }
        if leaf.nTypeChanges > 0 && leaf.changeTimes[0] < leaf.height {
          return Some(Ok(NegInf));
        }
      }
      i := i + 1;
    }
    return None;
  }

  /** With a finite log f, the ratio is (N - 2) log f for the N scaled values. */
  lemma LogRatioFinite(v: seq<NodeRec>, x: real)
    ensures LogRatio(v, Finite(x)) == Finite(Net(ScaledCount(v, true) + ScaledCount(v, false), x))
  {
    TwoRunsFinite(x, ScaledCount(v, true), ScaledCount(v, false));
  }

  /** n values gained and two lost, each worth x. */
  function Net(n: int, x: real): real
  {
    (n as real - 2.0) * x
  }

  lemma TwoRunsFinite(x: real, a: nat, b: nat)
    ensures Repeated(Repeated(Mul(Finite(x), -2.0), Finite(x), a), Finite(x), b) == Finite(Net(a + b, x))
  {
    var start := x * -2.0;
    var m := start + a as real * x;
    assert Mul(Finite(x), -2.0) == Finite(start);
    assert Repeated(Finite(start), Finite(x), a) == Finite(m) by {
      RepeatedFinite(start, x, a);
    }
    assert Repeated(Finite(m), Finite(x), b) == Finite(m + b as real * x) by {
      RepeatedFinite(m, x, b);
    }
    assert m + b as real * x == ((a + b) as real - 2.0) * x by {
      Collected(x, a, b);
    }
  }

  lemma Collected(x: real, a: nat, b: nat)
    ensures x * -2.0 + a as real * x + b as real * x == ((a + b) as real - 2.0) * x
  {
  }

  /** Without a rejection, the log Hastings ratio is (N - 2) log f for the N scaled values. */
  lemma ScalingRatio(v: seq<NodeRec>, scale: real, u: real, ln: real -> real)
    requires Shaped(v) && scale > 0.0 && 0.0 <= u <= 1.0
    ensures var n := ScaledCount(v, true) + ScaledCount(v, false);
      var r := Scaling(v, scale, u, ln).result;
      r.Ok? && r.value != NegInf ==> r.value == Finite(Net(n, ln(Factor(u, scale))))
  {
    var f := Factor(u, scale);
    FactorPositive(u, scale);
    assert LogOf(ln, f) == Finite(ln(f));
    LogRatioFinite(v, ln(f));
  }

  /** A leaf passes the check when its parent is above it and its first change is not below it. */
  lemma {:induction false} CheckedNone(w: seq<NodeRec>, from: int, i: int)
    requires Shaped(w) && 0 <= from <= i < |w| && IsLeaf(w[i]) && Checked(w, from) == None
    ensures w[i].parent != -1 && w[i].height <= w[w[i].parent].height
    ensures w[i].changeCount > 0 ==> w[i].height <= w[i].changeTimes[0]
    decreases i - from
  {
    if from < i {
      CheckedNone(w, from + 1, i);
    }
  }

  /** Multiplying by a positive factor keeps an ascending sequence ascending. */
  lemma TimesAscending(f: real, s: seq<real>)
    requires f > 0.0 && Ascending(s)
    ensures Ascending(Times(f, s))
  {
    forall i | 0 <= i < |s| - 1
      ensures Times(f, s)[i] <= Times(f, s)[i + 1]
    {
      assert f * s[i + 1] - f * s[i] == f * (s[i + 1] - s[i]);
      ProductNonNegative(f, s[i + 1] - s[i]);
    }
  }

  /** A non-negative value does not shrink when multiplied by a factor of at least one. */
  lemma GrowsWith(f: real, x: real)
    requires f >= 1.0 && x >= 0.0
    ensures f * x >= x
  {
    ProductNonNegative(f - 1.0, x);
  }

  /** The branch above an internal node: everything on it is multiplied by f, so its order stays. */
  lemma InnerBranchScaled(n: NodeRec, top: real, f: real)
    requires f > 0.0 && BranchTimesOrdered(top, n) && !IsLeaf(n)
    ensures BranchTimesOrdered(top * f, ScaledNode(n, f))
  {
    var s := [n.height] + n.changeTimes + [top];
    TimesAscending(f, s);
    var t := [n.height * f] + Times(f, n.changeTimes) + [top * f];
    assert |t| == |s|;
    forall k | 0 <= k < |s|
      ensures t[k] == Times(f, s)[k]
    {
      if 0 < k <= |n.changeTimes| {
        assert t[k] == Times(f, n.changeTimes)[k - 1];
      }
    }
    assert t == Times(f, s);
    assert ScaledNode(n, f).height == n.height * f && ScaledNode(n, f).changeTimes == Times(f, n.changeTimes);
    assert t == [ScaledNode(n, f).height] + ScaledNode(n, f).changeTimes + [top * f];
  }

  /**
   * The branch above a leaf: the changes and the parent height are
   * multiplied by f while the leaf height stays; its order stays when the
   * leaf is still below the first scaled value.
   */
  lemma LeafBranchScaled(n: NodeRec, top: real, f: real)
    requires f > 0.0 && BranchTimesOrdered(top, n)
    requires IsLeaf(n) && n.height <= (if |n.changeTimes| > 0 then f * n.changeTimes[0] else top * f)
    ensures BranchTimesOrdered(top * f, ScaledNode(n, f))
  {
    var s := n.changeTimes + [top];
    var full := [n.height] + n.changeTimes + [top];
    assert Ascending(s) by {
      forall i | 0 <= i < |s| - 1
        ensures s[i] <= s[i + 1]
      {
        assert s[i] == full[i + 1] && s[i + 1] == full[i + 2];
      }
    }
    TimesAscending(f, s);
    var ts := Times(f, s);
    var t := [n.height] + Times(f, n.changeTimes) + [top * f];
    assert |t| == |ts| + 1;
    forall k | 1 <= k < |t|
      ensures t[k] == ts[k - 1]
    {
      if k <= |n.changeTimes| {
        assert t[k] == Times(f, n.changeTimes)[k - 1];
      }
    }
    forall k | 0 <= k < |t| - 1
      ensures t[k] <= t[k + 1]
    {
      if k == 0 {
        assert t[1] == ts[0];
      } else {
        assert t[k] == ts[k - 1] && t[k + 1] == ts[k];
      }
    }
    assert t == [ScaledNode(n, f).height] + ScaledNode(n, f).changeTimes + [top * f];
  }

  /**
   * A scaling by a positive factor that is not rejected keeps every branch
   * time-ordered, as long as the leaves sit at non-negative heights; the
   * links and types are not touched.
   */
  lemma ScalingKeepsValidity(v: seq<NodeRec>, scale: real, u: real, ln: real -> real)
    requires Shaped(v) && Linked(v) && AllBranchesOrdered(v) && AllTypesMatch(v)
    requires forall i :: 0 <= i < |v| ==> v[i].height >= 0.0
    requires scale > 0.0 && 0.0 <= u <= 1.0
    ensures var s := Scaling(v, scale, u, ln);
      Shaped(s.view) && Linked(s.view) && AllTypesMatch(s.view) &&
      (s.result.Ok? && s.result.value != NegInf ==> AllBranchesOrdered(s.view))
  {
    var f := Factor(u, scale);
    FactorPositive(u, scale);
    var w := Scaled(v, f);
    ScaledShaped(v, f);
    SameLinksAndTypes(v, w);
    var s := Scaling(v, scale, u, ln);
    if s.result.Ok? && s.result.value != NegInf {
      assert f < 1.0 ==> Checked(w, 0) == None;
      forall i | 0 <= i < |w| && w[i].parent != -1
        ensures BranchTimesOrdered(w[w[i].parent].height, w[i])
      {
        ScaledBranch(v, f, i);
      }
    }
  }

  /** One branch of an accepted scaling stays time-ordered. */
  lemma ScaledBranch(v: seq<NodeRec>, f: real, i: int)
    requires Shaped(v) && Linked(v) && AllBranchesOrdered(v) && 0 <= i < |v| && v[i].parent != -1
    requires forall i :: 0 <= i < |v| ==> v[i].height >= 0.0
    requires f > 0.0 && (f < 1.0 ==> (ScaledShaped(v, f); Checked(Scaled(v, f), 0) == None))
    ensures BranchTimesOrdered(Scaled(v, f)[v[i].parent].height, Scaled(v, f)[i])
  {
    var w := Scaled(v, f);
    ScaledShaped(v, f);
    var p := v[i].parent;
    assert i in v[p].children;
    assert !IsLeaf(v[p]);
    var top := v[p].height;
    assert w[p].height == top * f;
    assert w[i] == ScaledNode(v[i], f);
    assert BranchTimesOrdered(top, v[i]);
    if IsLeaf(v[i]) {
      var n := v[i];
      if f < 1.0 {
        CheckedNone(w, 0, i);
      } else {
        AscendingIsSorted([n.height] + n.changeTimes + [top], 0, 1);
        if |n.changeTimes| > 0 {
          GrowsWith(f, n.changeTimes[0]);
        } else {
          GrowsWith(f, top);
        }
      }
      LeafBranchScaled(n, top, f);
    } else {
      InnerBranchScaled(v[i], top, f);
    }
  }

  /** Scaling by f and then by 1/f gives back the arena. */
  lemma ScalingInverts(v: seq<NodeRec>, f: real)
    requires f != 0.0
    ensures Scaled(Scaled(v, f), 1.0 / f) == v
  {
    forall i | 0 <= i < |v|
      ensures Scaled(Scaled(v, f), 1.0 / f)[i] == v[i]
    {
      var n := v[i];
      assert (n.height * f) * (1.0 / f) == n.height;
      var back := Times(1.0 / f, Times(f, n.changeTimes));
      forall j | 0 <= j < |n.changeTimes|
        ensures back[j] == n.changeTimes[j]
      {
        assert (1.0 / f) * (f * n.changeTimes[j]) == n.changeTimes[j];
      }
    }
  }
}
