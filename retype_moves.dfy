// One call of retypeBranch as a value, for the operators that retype
// branches and return the ratio of old to new path probabilities
// (RecolorBranch, NodeShiftRetype, TypedSubtreeExchange). The lambdas and
// etas parameters are optional inputs of these operators: the move carries
// them when both are present. The operators that compute the end-point
// probability Pba of a branch from the tree take it as expm(Q L) at the
// branch's length and the types at its two ends; `expm` gives it and stays
// abstract. Sums of getBranchTypeProb and retypeBranch calls are written
// out the way the operators write them, left to right.

module RetypeMoves {
  import opened Wrappers
  import opened Doubles
  import opened SeedbankNodes
  import opened SeedbankTrees
  import opened TreeSurgery
  import opened Retype

  /** The draws one retypeBranch call consumes: the event count and the uniforms of its two loops. */
  datatype Attempt = Attempt(nVirt: int, timeDraws: seq<real>, typeDraws: seq<real>)

  /** What a move returns and leaves: its result, the tree and the parameters when present. */
  datatype Move = Move(result: Result<Double>, view: seq<NodeRec>, params: Option<Indicators>)

  predicate FitsOpt(ind: Option<Indicators>, v: seq<NodeRec>)
  {
    ind.Some? ==> Fits(ind.value, v)
  }

  /**
   * retypeBranch(node) with the draws a: the value it returns, and the
   * tree and parameters it leaves (a written path and the node's
   * recalculated indicators, or nothing changed).
   */
  function RetypedMove(v: seq<NodeRec>, ind: Option<Indicators>, ch: Chain, ln: real -> real, node: int, pba: real,
                       a: Attempt): (m: Move)
    requires Shaped(v) && 0 <= node < |v| && FitsOpt(ind, v)
    ensures Shaped(m.view) && |m.view| == |v| && FitsOpt(m.params, m.view) && (m.params.Some? <==> ind.Some?)
    ensures m.result.Fail? ==> (m.result.error == NullPointer || m.result.error == DrawsExhausted)
    ensures m.result.Fail? ==> m.view == v && m.params == ind
    ensures m.result.Fail? && m.result.error == NullPointer <==> v[node].parent == -1
  {
    var s := Sampled(v, ch, ln, node, pba, a.nVirt, a.timeDraws, a.typeDraws);
    if s.Ok? && s.value.Path? then
      var w := Written(v, node, s.value);
      Move(Returned(s), w, RecalcOpt(ind, w, node))
    else Move(Returned(s), v, ind)
  }

  /**
   * When retypeBranch writes a path, the value it returns is the path
   * probability getBranchTypeProb then gives the branch; when it does not,
   * it returns -infinity or fails.
   */
  lemma RetypedMoveProb(v: seq<NodeRec>, ind: Option<Indicators>, ch: Chain, ln: real -> real, node: int, pba: real,
                        a: Attempt)
    requires Shaped(v) && 0 <= node < |v| && FitsOpt(ind, v)
    ensures var m := RetypedMove(v, ind, ch, ln, node, pba, a);
      (m.view != v ==> m.result.Ok? && BranchTypeProb(m.view, ch, ln, node, pba) == m.result) &&
      (m.result.Ok? && m.result.value != NegInf ==> BranchTypeProb(m.view, ch, ln, node, pba) == m.result)
  {
    RetypedPathProb(v, ch, ln, node, pba, a.nVirt, a.timeDraws, a.typeDraws);
  }

  /** retypeBranch(node) changes node's branch and indicators and nothing else. */
  lemma RetypedMoveIsLocal(v: seq<NodeRec>, ind: Option<Indicators>, ch: Chain, ln: real -> real, node: int,
                           pba: real, a: Attempt)
    requires Shaped(v) && 0 <= node < |v| && FitsOpt(ind, v)
    ensures var m := RetypedMove(v, ind, ch, ln, node, pba, a);
      (forall i :: 0 <= i < |v| && i != node ==> m.view[i] == v[i]) &&
      m.view[node].height == v[node].height && m.view[node].parent == v[node].parent &&
      m.view[node].children == v[node].children && m.view[node].nodeType == v[node].nodeType &&
      (ind.Some? ==> forall i :: 0 <= i < |v| && i != node ==>
         m.params.value.lambdas[i] == ind.value.lambdas[i] && m.params.value.etas[i] == ind.value.etas[i])
  {
  }

  /** retypeBranch on the tree, as RetypedMove states it. */
  method RetypeOnce(t: SeedbankTree, lambdas: array?<Double>, etas: array?<int>, ch: Chain, ln: real -> real,
                    node: int, pba: real, a: Attempt) returns (r: Result<Double>)
    requires t.Wf() && 0 <= node < |t.nodes|
    requires lambdas != null ==> lambdas.Length == |t.nodes|
    requires etas != null ==> etas.Length == |t.nodes|
    modifies t.nodes[node], lambdas, etas
    ensures t.Wf()
    ensures Move(r, t.View(), ParamsOf(lambdas, etas)) ==
      RetypedMove(old(t.View()), old(ParamsOf(lambdas, etas)), ch, ln, node, pba, a)
  {
    r := RetypeBranch(t, lambdas, etas, ch, ln, node, pba, a.nVirt, a.timeDraws, a.typeDraws);
  }

  /* ---------------------------------------------------------------------
   * Branch probabilities and retypes with the tree's own Pba.
   */

  /** Pba of node's branch: expm(Q L) at the branch length and the types at its two ends. */
  function PbaAt(v: seq<NodeRec>, expm: (real, int, int) -> real, node: int): real
    requires Shaped(v) && 0 <= node < |v|
  {
    if v[node].parent == -1 then expm(0.0, v[node].nodeType, v[node].nodeType)
    else expm(BranchLength(v, node), v[node].nodeType, v[v[node].parent].nodeType)
  }

  /** getBranchTypeProb(node) on the tree v. */
  function Prob(v: seq<NodeRec>, ch: Chain, ln: real -> real, expm: (real, int, int) -> real, node: int): Result<Double>
    requires Shaped(v) && 0 <= node < |v|
  {
    BranchTypeProb(v, ch, ln, node, PbaAt(v, expm, node))
  }

  /** Every node keeps its height, links and type: what a retype leaves alone. */
  predicate Framed(v: seq<NodeRec>, w: seq<NodeRec>)
  {
    |v| == |w| &&
    forall i :: 0 <= i < |v| ==>
      w[i].height == v[i].height && w[i].parent == v[i].parent && w[i].nodeType == v[i].nodeType &&
      w[i].children == v[i].children
  }

  /** `x + y` where either operand may have thrown: the left one's exception comes first. */
  function Plus(x: Result<Double>, y: Result<Double>): (r: Result<Double>)
    ensures r.Ok? <==> x.Ok? && y.Ok?
    ensures r.Ok? ==> r.value == Add(x.value, y.value)
    ensures r.Fail? ==> r == if x.Fail? then x else y
  {
    if x.Fail? then x else if y.Fail? then y else Ok(Add(x.value, y.value))
  }

  /** `getBranchTypeProb(a) + getBranchTypeProb(b)` on the tree v. */
  function Before2(v: seq<NodeRec>, ch: Chain, ln: real -> real, expm: (real, int, int) -> real, a: int, b: int): Result<Double>
    requires Shaped(v) && 0 <= a < |v| && 0 <= b < |v|
  {
    Plus(Prob(v, ch, ln, expm, a), Prob(v, ch, ln, expm, b))
  }

  /** `getBranchTypeProb(a) + getBranchTypeProb(b) + getBranchTypeProb(c)` on the tree v. */
  function Before3(v: seq<NodeRec>, ch: Chain, ln: real -> real, expm: (real, int, int) -> real, a: int, b: int, c: int)
    : Result<Double>
    requires Shaped(v) && 0 <= a < |v| && 0 <= b < |v| && 0 <= c < |v|
  {
    Plus(Before2(v, ch, ln, expm, a, b), Prob(v, ch, ln, expm, c))
  }

  /** A framed tree that keeps a branch's record keeps its probability. */
  lemma ProbKept(v: seq<NodeRec>, w: seq<NodeRec>, ch: Chain, ln: real -> real, expm: (real, int, int) -> real, k: int)
    requires Shaped(v) && Shaped(w) && Framed(v, w) && 0 <= k < |v| && w[k] == v[k]
    ensures Prob(w, ch, ln, expm, k) == Prob(v, ch, ln, expm, k)
  {
    PbaKept(v, w, expm, k);
  }

  /** Pba reads the branch's height and type and its parent's; a tree that keeps those keeps it. */
  lemma PbaKept(v: seq<NodeRec>, w: seq<NodeRec>, expm: (real, int, int) -> real, k: int)
    requires Shaped(v) && Shaped(w) && Framed(v, w) && 0 <= k < |v|
    ensures PbaAt(w, expm, k) == PbaAt(v, expm, k)
  {
  }

  /**
   * `acc + retypeBranch(node)`: the retype of node's branch with the
   * tree's Pba, added to what the sum so far holds; an exception ends the
   * sum.
   */
  function ThenRetype(m: Move, ch: Chain, ln: real -> real, expm: (real, int, int) -> real, node: int,
                      a: Attempt): (r: Move)
    requires Shaped(m.view) && 0 <= node < |m.view| && FitsOpt(m.params, m.view)
    ensures Shaped(r.view) && |r.view| == |m.view| && FitsOpt(r.params, r.view) && (r.params.Some? <==> m.params.Some?)
  {
    if m.result.Fail? then m
    else
      var n := RetypedMove(m.view, m.params, ch, ln, node, PbaAt(m.view, expm, node), a);
      if n.result.Fail? then n else Move(Ok(Add(m.result.value, n.result.value)), n.view, n.params)
  }

  /**
   * The retype changes node's change lists and nothing else; a finite sum
   * after it has a finite sum before it and adds the probability of the
   * branch's new path.
   */
  lemma ThenRetypeFinite(m: Move, ch: Chain, ln: real -> real, expm: (real, int, int) -> real, node: int, a: Attempt)
    requires Shaped(m.view) && 0 <= node < |m.view| && FitsOpt(m.params, m.view)
    ensures var r := ThenRetype(m, ch, ln, expm, node, a);
      Framed(m.view, r.view) && (forall i :: 0 <= i < |m.view| && i != node ==> r.view[i] == m.view[i]) &&
      (r.result.Ok? && r.result.value.Finite? ==>
         m.result.Ok? && m.result.value.Finite? && Prob(r.view, ch, ln, expm, node).Ok? &&
         r.result.value == Add(m.result.value, Prob(r.view, ch, ln, expm, node).value))
  {
    if m.result.Ok? {
      var pba := PbaAt(m.view, expm, node);
      var n := RetypedMove(m.view, m.params, ch, ln, node, pba, a);
      RetypedMoveProb(m.view, m.params, ch, ln, node, pba, a);
      RetypedMoveIsLocal(m.view, m.params, ch, ln, node, pba, a);
      if n.result.Ok? {
        var w := n.view;
        assert Framed(m.view, w);
        PbaKept(m.view, w, expm, node);
      }
    }
  }

  /** The tree's Pba for node's branch, as getBranchTypeProb and retypeBranch compute it. */
  method GetPba(t: SeedbankTree, expm: (real, int, int) -> real, node: int) returns (pba: real)
    requires t.Wf() && 0 <= node < |t.nodes|
    ensures pba == PbaAt(t.View(), expm, node)
  {
    var n := t.nodes[node];
    assert t.View()[node] == n.Record();
    if n.parent == -1 {
      return expm(0.0, n.nodeType, n.nodeType);
    }
    assert t.View()[n.parent] == t.nodes[n.parent].Record();
    pba := expm(t.nodes[n.parent].height - n.height, n.nodeType, t.nodes[n.parent].nodeType);
  }

  /** getBranchTypeProb(node) with the tree's Pba. */
  method GetProb(t: SeedbankTree, ch: Chain, ln: real -> real, expm: (real, int, int) -> real, node: int)
    returns (r: Result<Double>)
    requires t.Wf() && 0 <= node < |t.nodes|
    ensures r == Prob(t.View(), ch, ln, expm, node)
  {
    var pba := GetPba(t, expm, node);
    r := GetBranchTypeProb(t, ch, ln, node, pba);
  }

  /** The sum so far plus retypeBranch(node), on the tree. */
  method RetypeAdding(t: SeedbankTree, lambdas: array?<Double>, etas: array?<int>, ch: Chain, ln: real -> real,
                      expm: (real, int, int) -> real, node: int, acc: Result<Double>, a: Attempt)
    returns (r: Result<Double>)
    requires t.Wf() && 0 <= node < |t.nodes|
    requires lambdas != null ==> lambdas.Length == |t.nodes|
    requires etas != null ==> etas.Length == |t.nodes|
    modifies t.nodes[node], lambdas, etas
    ensures t.Wf()
    ensures Move(r, t.View(), ParamsOf(lambdas, etas)) ==
      ThenRetype(Move(acc, old(t.View()), old(ParamsOf(lambdas, etas))), ch, ln, expm, node, a)
  {
    if acc.Fail? {
      return acc;
    }
    var pba := GetPba(t, expm, node);
    var retyped := RetypeOnce(t, lambdas, etas, ch, ln, node, pba, a);
    if retyped.Fail? {
      return retyped;
    }
    r := Ok(Add(acc.value, retyped.value));
  }


  /** Nothing retyped yet: the sum starts at 0.0. */
  function Start(v: seq<NodeRec>, ind: Option<Indicators>): Move
  {
    Move(Ok(Finite(0.0)), v, ind)
  }

  /** `0.0 + retypeBranch(x) + retypeBranch(y)`. */
  function Retyped2(w: seq<NodeRec>, ind: Option<Indicators>, ch: Chain, ln: real -> real, expm: (real, int, int) -> real,
                    x: int, y: int, a1: Attempt, a2: Attempt): (m: Move)
    requires Shaped(w) && 0 <= x < |w| && 0 <= y < |w| && FitsOpt(ind, w)
    ensures Shaped(m.view) && |m.view| == |w| && FitsOpt(m.params, m.view) && (m.params.Some? <==> ind.Some?)
  {
    ThenRetype(ThenRetype(Start(w, ind), ch, ln, expm, x, a1), ch, ln, expm, y, a2)
  }

  /** `0.0 + retypeBranch(x) + retypeBranch(y) + retypeBranch(z)`. */
  function Retyped3(w: seq<NodeRec>, ind: Option<Indicators>, ch: Chain, ln: real -> real, expm: (real, int, int) -> real,
                    x: int, y: int, z: int, a1: Attempt, a2: Attempt, a3: Attempt): (m: Move)
    requires Shaped(w) && 0 <= x < |w| && 0 <= y < |w| && 0 <= z < |w| && FitsOpt(ind, w)
    ensures Shaped(m.view) && |m.view| == |w| && FitsOpt(m.params, m.view)
  {
    ThenRetype(Retyped2(w, ind, ch, ln, expm, x, y, a1, a2), ch, ln, expm, z, a3)
  }

  /** `logHR -= sum`: the log ratio so far less the retypes' sum, unless a retype threw. */
  function Finish(m: Move, logHR: Double): (r: Move)
    ensures r.view == m.view && r.params == m.params
  {
    if m.result.Fail? then m else Move(Ok(Sub(logHR, m.result.value)), m.view, m.params)
  }


  /** A finite difference has finite operands. */
  lemma SubFinite(a: Double, b: Double)
    requires Sub(a, b).Finite?
    ensures a.Finite? && b.Finite?
  {
  }

  /**
   * `0.0 + retypeBranch(x) + retypeBranch(y)` for two different branches:
   * when finite, it is the probability of the paths the two branches are
   * left with.
   */
  lemma Retyped2Sum(w: seq<NodeRec>, ind: Option<Indicators>, ch: Chain, ln: real -> real,
                    expm: (real, int, int) -> real, x: int, y: int, a1: Attempt, a2: Attempt)
    requires Shaped(w) && 0 <= x < |w| && 0 <= y < |w| && FitsOpt(ind, w) && x != y
    ensures var m := Retyped2(w, ind, ch, ln, expm, x, y, a1, a2);
      m.result.Ok? && m.result.value.Finite? ==> Before2(m.view, ch, ln, expm, x, y) == m.result
  {
    var m0 := Start(w, ind);
    var m1 := ThenRetype(m0, ch, ln, expm, x, a1);
    var m2 := ThenRetype(m1, ch, ln, expm, y, a2);
    ThenRetypeFinite(m0, ch, ln, expm, x, a1);
    ThenRetypeFinite(m1, ch, ln, expm, y, a2);
    if m2.result.Ok? && m2.result.value.Finite? {
      AddZero(Prob(m1.view, ch, ln, expm, x).value);
      ProbKept(m1.view, m2.view, ch, ln, expm, x);
    }
  }

  /** The same for three different branches. */
  lemma Retyped3Sum(w: seq<NodeRec>, ind: Option<Indicators>, ch: Chain, ln: real -> real,
                    expm: (real, int, int) -> real, x: int, y: int, z: int, a1: Attempt, a2: Attempt, a3: Attempt)
    requires Shaped(w) && 0 <= x < |w| && 0 <= y < |w| && 0 <= z < |w| && FitsOpt(ind, w)
    requires x != y && x != z && y != z
    ensures var m := Retyped3(w, ind, ch, ln, expm, x, y, z, a1, a2, a3);
      m.result.Ok? && m.result.value.Finite? ==> Before3(m.view, ch, ln, expm, x, y, z) == m.result
  {
    var m2 := Retyped2(w, ind, ch, ln, expm, x, y, a1, a2);
    var m3 := ThenRetype(m2, ch, ln, expm, z, a3);
    Retyped2Sum(w, ind, ch, ln, expm, x, y, a1, a2);
    ThenRetypeFinite(m2, ch, ln, expm, z, a3);
    if m3.result.Ok? && m3.result.value.Finite? {
      ProbKept(m2.view, m3.view, ch, ln, expm, x);
      ProbKept(m2.view, m3.view, ch, ln, expm, y);
      assert Before2(m3.view, ch, ln, expm, x, y) == m2.result;
    }
  }


  /** Two retypes in a row change the two branches' change lists and nothing else. */
  lemma ChainIsLocal(w: seq<NodeRec>, ind: Option<Indicators>, ch: Chain, ln: real -> real,
                     expm: (real, int, int) -> real, x: int, y: int, a1: Attempt, a2: Attempt)
    requires Shaped(w) && 0 <= x < |w| && 0 <= y < |w| && FitsOpt(ind, w)
    ensures var m := Retyped2(w, ind, ch, ln, expm, x, y, a1, a2);
      Framed(w, m.view) && forall i :: 0 <= i < |w| && i != x && i != y ==> m.view[i] == w[i]
  {
    var m1 := ThenRetype(Start(w, ind), ch, ln, expm, x, a1);
    ThenRetypeFinite(Start(w, ind), ch, ln, expm, x, a1);
    ThenRetypeFinite(m1, ch, ln, expm, y, a2);
  }

  /** Three retypes in a row change the three branches' change lists and nothing else. */
  lemma LongerChainIsLocal(w: seq<NodeRec>, ind: Option<Indicators>, ch: Chain, ln: real -> real,
                           expm: (real, int, int) -> real, x: int, y: int, z: int, a1: Attempt, a2: Attempt, a3: Attempt)
    requires Shaped(w) && 0 <= x < |w| && 0 <= y < |w| && 0 <= z < |w| && FitsOpt(ind, w)
    ensures var m := Retyped3(w, ind, ch, ln, expm, x, y, z, a1, a2, a3);
      Framed(w, m.view) && forall i :: 0 <= i < |w| && i != x && i != y && i != z ==> m.view[i] == w[i]
  {
    var m2 := Retyped2(w, ind, ch, ln, expm, x, y, a1, a2);
    ChainIsLocal(w, ind, ch, ln, expm, x, y, a1, a2);
    ThenRetypeFinite(m2, ch, ln, expm, z, a3);
  }


  lemma AddZero(x: Double)
    ensures Add(Finite(0.0), x) == x
  {
  }

  /** `0.0 + retypeBranch(x) + retypeBranch(y)` on the tree. */
  method RetypeTwo(t: SeedbankTree, lambdas: array?<Double>, etas: array?<int>, ch: Chain, ln: real -> real,
                   expm: (real, int, int) -> real, x: int, y: int, a1: Attempt, a2: Attempt) returns (r: Result<Double>)
    requires t.Wf() && 0 <= x < |t.nodes| && 0 <= y < |t.nodes|
    requires lambdas != null ==> lambdas.Length == |t.nodes|
    requires etas != null ==> etas.Length == |t.nodes|
    modifies t.nodes, lambdas, etas
    ensures t.Wf()
    ensures Move(r, t.View(), ParamsOf(lambdas, etas)) ==
      Retyped2(old(t.View()), old(ParamsOf(lambdas, etas)), ch, ln, expm, x, y, a1, a2)
  {
    r := RetypeAdding(t, lambdas, etas, ch, ln, expm, x, Ok(Finite(0.0)), a1);
    r := RetypeAdding(t, lambdas, etas, ch, ln, expm, y, r, a2);
  }

  /** `0.0 + retypeBranch(x) + retypeBranch(y) + retypeBranch(z)` on the tree. */
  method RetypeThree(t: SeedbankTree, lambdas: array?<Double>, etas: array?<int>, ch: Chain, ln: real -> real,
                     expm: (real, int, int) -> real, x: int, y: int, z: int, a1: Attempt, a2: Attempt, a3: Attempt)
    returns (r: Result<Double>)
    requires t.Wf() && 0 <= x < |t.nodes| && 0 <= y < |t.nodes| && 0 <= z < |t.nodes|
    requires lambdas != null ==> lambdas.Length == |t.nodes|
    requires etas != null ==> etas.Length == |t.nodes|
    modifies t.nodes, lambdas, etas
    ensures t.Wf()
    ensures Move(r, t.View(), ParamsOf(lambdas, etas)) ==
      Retyped3(old(t.View()), old(ParamsOf(lambdas, etas)), ch, ln, expm, x, y, z, a1, a2, a3)
  {
    r := RetypeTwo(t, lambdas, etas, ch, ln, expm, x, y, a1, a2);
    r := RetypeAdding(t, lambdas, etas, ch, ln, expm, z, r, a3);
  }

  /** `getBranchTypeProb(a) + getBranchTypeProb(b)` on the tree. */
  method ProbOfTwo(t: SeedbankTree, ch: Chain, ln: real -> real, expm: (real, int, int) -> real, a: int, b: int)
    returns (r: Result<Double>)
    requires t.Wf() && 0 <= a < |t.nodes| && 0 <= b < |t.nodes|
    ensures r == Before2(t.View(), ch, ln, expm, a, b)
  {
    var pa := GetProb(t, ch, ln, expm, a);
    var pb := GetProb(t, ch, ln, expm, b);
    r := Plus(pa, pb);
  }

  /** `getBranchTypeProb(a) + getBranchTypeProb(b) + getBranchTypeProb(c)` on the tree. */
  method ProbOfThree(t: SeedbankTree, ch: Chain, ln: real -> real, expm: (real, int, int) -> real, a: int, b: int, c: int)
    returns (r: Result<Double>)
    requires t.Wf() && 0 <= a < |t.nodes| && 0 <= b < |t.nodes| && 0 <= c < |t.nodes|
    ensures r == Before3(t.View(), ch, ln, expm, a, b, c)
  {
    var pab := ProbOfTwo(t, ch, ln, expm, a, b);
    var pc := GetProb(t, ch, ln, expm, c);
    r := Plus(pab, pc);
  }
}
