// TypedSubtreeExchange: two nodes swap places. src leaves srcParent for
// destParent and dest leaves destParent for srcParent; both branches are
// then retyped. In narrow mode src is a grandchild of some node and dest is
// its parent's sibling; in wide mode dest is any non-root node that does
// not share src's parent. A swap that would give a branch a non-positive
// length is rejected with -infinity and changes nothing. The log Hastings
// ratio is the log probability of the two branches' old paths less that of
// their new ones.
//
// The Randomizer.nextInt draws of the selection loops are the parameter
// `picks`, consumed left to right (each taken modulo the node count), and
// one Attempt per retyped branch.

module SubtreeExchanges {
  import opened Wrappers
  import opened Doubles
  import opened SeedbankNodes
  import opened SeedbankTrees
  import opened TreeSurgery
  import opened Retype
  import opened RetypeMoves
  import opened NodeDraws

  /* ---------------------------------------------------------------------
   * Selecting the two nodes.
   */

  /** Narrow mode's src: neither the root nor a child of the root. */
  predicate NarrowSource(v: seq<NodeRec>, k: int)
    requires Shaped(v)
  {
    0 <= k < |v| && v[k].parent != -1 && v[v[k].parent].parent != -1
  }

  /** Wide mode's src: not the root. */
  predicate WideSource(v: seq<NodeRec>, k: int)
  {
    0 <= k < |v| && v[k].parent != -1
  }

  /** Wide mode's dest: not src, not the root, and not a child of src's parent. */
  predicate WideDest(v: seq<NodeRec>, src: int, k: int)
    requires 0 <= src < |v|
  {
    0 <= k < |v| && k != src && v[k].parent != -1 && v[k].parent != v[src].parent
  }

  datatype Pair = Pair(src: int, dest: int)

  /**
   * Narrow selection: src drawn again while it is the root or a child of
   * the root; dest the other child of src's grandparent. A missing one
   * throws NullPointerException when its parent is read.
   */
  function NarrowPair(v: seq<NodeRec>, picks: seq<nat>): (r: Result<Pair>)
    requires Shaped(v) && |v| > 0
    ensures r.Ok? ==> 0 <= r.value.src < |v| && 0 <= r.value.dest < |v| && NarrowSource(v, r.value.src)
    ensures r.Ok? ==>
      var sp := v[r.value.src].parent; OtherChild(v[v[sp].parent].children, sp) == Ok(r.value.dest)
    ensures r.Fail? ==> r.error == NullPointer || r.error == DrawsExhausted
    ensures (forall j :: 0 <= j < |picks| ==> !NarrowSource(v, picks[j] % |v|)) ==> r == Fail(DrawsExhausted)
  {
    match FirstAccepted(|v|, picks, k => NarrowSource(v, k))
    case Fail(e) => Fail(e)
    case Ok((src, _)) =>
      var sp := v[src].parent;
      match OtherChild(v[v[sp].parent].children, sp)
      case Fail(e) => Fail(e)
      case Ok(dest) => if dest == -1 then Fail(NullPointer) else Ok(Pair(src, dest))
  }

  /** Wide selection: src drawn again while it is the root, then dest from the draws after it. */
  function WidePair(v: seq<NodeRec>, picks: seq<nat>): (r: Result<Pair>)
    requires Shaped(v) && |v| > 0
    ensures r.Ok? ==> WideSource(v, r.value.src) && WideDest(v, r.value.src, r.value.dest)
    ensures r.Fail? ==> r.error == DrawsExhausted
    ensures (forall j :: 0 <= j < |picks| ==> !WideSource(v, picks[j] % |v|)) ==> r == Fail(DrawsExhausted)
  {
    match WideSourceDraw(v, picks)
    case Fail(e) => Fail(e)
    case Ok((src, at)) =>
      match WideDestDraw(v, src, picks[at + 1..])
      case Fail(e) => Fail(e)
      case Ok((dest, _)) => Ok(Pair(src, dest))
  }

  /** The src draws of wide mode. */
  function WideSourceDraw(v: seq<NodeRec>, picks: seq<nat>): (r: Result<(int, nat)>)
    requires |v| > 0
    ensures r.Ok? ==> r.value.1 < |picks| && WideSource(v, r.value.0)
  {
    FirstAccepted(|v|, picks, k => WideSource(v, k))
  }

  /** The dest draws of wide mode, over the draws left after src's. */
  function WideDestDraw(v: seq<NodeRec>, src: int, rest: seq<nat>): (r: Result<(int, nat)>)
    requires 0 <= src < |v|
    ensures r.Ok? ==> WideDest(v, src, r.value.0)
  {
    FirstAccepted(|v|, rest, k => WideDest(v, src, k))
  }

  /** The selection of proposal(); with no nodes, nextInt throws. */
  function Selected(v: seq<NodeRec>, narrow: bool, picks: seq<nat>): (r: Result<Pair>)
    requires Shaped(v)
    ensures r.Ok? ==> 0 <= r.value.src < |v| && 0 <= r.value.dest < |v| && v[r.value.src].parent != -1
  {
    if |v| == 0 then Fail(IllegalArgument)
    else if narrow then NarrowPair(v, picks)
    else WidePair(v, picks)
  }

  /* ---------------------------------------------------------------------
   * The exchange.
   */

  /** replace(srcParent, src, dest) and then replace(destParent, dest, src). */
  function Swapped(v: seq<NodeRec>, src: int, dest: int): (w: seq<NodeRec>)
    requires Shaped(v) && 0 <= src < |v| && 0 <= dest < |v| && v[src].parent != -1 && v[dest].parent != -1
    ensures Shaped(w) && |w| == |v|
  {
    Replaced(Replaced(v, v[src].parent, src, dest), v[dest].parent, dest, src)
  }

  /**
   * The rejection test: dest would not be younger than srcParent, or src
   * not younger than destParent. destParent is read only when the first
   * test passes; a missing one throws NullPointerException.
   */
  function Rejected(v: seq<NodeRec>, src: int, dest: int): (r: Result<bool>)
    requires Shaped(v) && 0 <= src < |v| && 0 <= dest < |v| && v[src].parent != -1
    ensures r == Fail(NullPointer) <==> v[dest].height < v[v[src].parent].height && v[dest].parent == -1
    ensures r.Ok? ==> r.Fail? || (r.value <==> v[dest].height >= v[v[src].parent].height ||
                                               v[src].height >= v[v[dest].parent].height)
  {
    if v[dest].height >= v[v[src].parent].height then Ok(true)
    else if v[dest].parent == -1 then Fail(NullPointer)
    else Ok(v[src].height >= v[v[dest].parent].height)
  }

  /**
   * What the move finds before it changes anything: an exception, a
   * rejection (None), or the sum of the two branches' old probabilities.
   */
  function Prepared(v: seq<NodeRec>, ch: Chain, ln: real -> real, expm: (real, int, int) -> real, src: int, dest: int)
    : (r: Result<Option<Double>>)
    requires Shaped(v) && 0 <= src < |v| && 0 <= dest < |v| && v[src].parent != -1
    ensures r.Ok? && r.value.Some? ==> Rejected(v, src, dest) == Ok(false) && v[dest].parent != -1
    ensures r == Ok(None) <==> Rejected(v, src, dest) == Ok(true)
  {
    match Rejected(v, src, dest)
    case Fail(e) => Fail(e)
    case Ok(true) => Ok(None)
    case Ok(false) =>
      match Before2(v, ch, ln, expm, src, dest)
      case Fail(e) => Fail(e)
      case Ok(before) => Ok(Some(before))
  }

  /**
   * The move on a selected pair: -infinity and no change when rejected;
   * otherwise the two old probabilities, the swap, the two retypes, and
   * the old sum less the new one. An exception in a retype ends the move
   * with the tree as it stands.
   */
  function Exchanged(v: seq<NodeRec>, ind: Option<Indicators>, ch: Chain, ln: real -> real,
                     expm: (real, int, int) -> real, src: int, dest: int, a1: Attempt, a2: Attempt): (r: Move)
    requires Shaped(v) && FitsOpt(ind, v) && 0 <= src < |v| && 0 <= dest < |v| && v[src].parent != -1
    ensures Shaped(r.view) && |r.view| == |v| && FitsOpt(r.params, r.view)
    ensures Rejected(v, src, dest) == Ok(true) ==> r == Move(Ok(NegInf), v, ind)
  {
    match Prepared(v, ch, ln, expm, src, dest)
    case Fail(e) => Move(Fail(e), v, ind)
    case Ok(None) => Move(Ok(NegInf), v, ind)
    case Ok(Some(before)) => Finish(Retyped2(Swapped(v, src, dest), ind, ch, ln, expm, src, dest, a1, a2), before)
  }

  /** proposal(): the selection, then the exchange. */
  function Exchange(v: seq<NodeRec>, ind: Option<Indicators>, ch: Chain, ln: real -> real,
                    expm: (real, int, int) -> real, narrow: bool, picks: seq<nat>, a1: Attempt, a2: Attempt): (r: Move)
    requires Shaped(v) && FitsOpt(ind, v)
    ensures Shaped(r.view) && |r.view| == |v| && FitsOpt(r.params, r.view)
  {
    match Selected(v, narrow, picks)
    case Fail(e) => Move(Fail(e), v, ind)
    case Ok(p) => Exchanged(v, ind, ch, ln, expm, p.src, p.dest, a1, a2)
  }

  /* ---------------------------------------------------------------------
   * What the exchange promises.
   */

  /**
   * After the swap dest hangs below srcParent and src below destParent,
   * every height is kept, and a swap that passed the rejection test gives
   * both branches a positive length.
   */
  lemma SwappedShape(v: seq<NodeRec>, src: int, dest: int)
    requires Shaped(v) && 0 <= src < |v| && 0 <= dest < |v| && src != dest
    requires v[src].parent != -1 && v[dest].parent != -1 && v[src].parent != v[dest].parent
    ensures var w := Swapped(v, src, dest); var sp := v[src].parent; var dp := v[dest].parent;
      w[dest].parent == sp && w[src].parent == dp &&
      w[sp].children == RemoveFirst(v[sp].children, src) + [dest] &&
      w[dp].children == RemoveFirst(v[dp].children, dest) + [src] &&
      (forall i :: 0 <= i < |v| ==> w[i].height == v[i].height) &&
      (forall i :: 0 <= i < |v| && i != src && i != dest ==> w[i].parent == v[i].parent) &&
      (forall i :: 0 <= i < |v| && i != sp && i != dp ==> w[i].children == v[i].children)
    ensures Rejected(v, src, dest) == Ok(false) ==>
      var w := Swapped(v, src, dest);
      w[dest].height < w[w[dest].parent].height && w[src].height < w[w[src].parent].height
  {
  }

  /**
   * The log Hastings ratio: when it is finite, it is the log probability
   * of the two branches' paths before the move less that after it.
   */
  lemma ExchangedRatio(v: seq<NodeRec>, ind: Option<Indicators>, ch: Chain, ln: real -> real,
                       expm: (real, int, int) -> real, src: int, dest: int, a1: Attempt, a2: Attempt)
    requires Shaped(v) && FitsOpt(ind, v) && 0 <= src < |v| && 0 <= dest < |v| && v[src].parent != -1
    requires src != dest
    ensures var r := Exchanged(v, ind, ch, ln, expm, src, dest, a1, a2);
      r.result.Ok? && r.result.value.Finite? ==>
        Before2(v, ch, ln, expm, src, dest).Ok? && Before2(r.view, ch, ln, expm, src, dest).Ok? &&
        r.result.value == Sub(Before2(v, ch, ln, expm, src, dest).value, Before2(r.view, ch, ln, expm, src, dest).value)
  {
    var r := Exchanged(v, ind, ch, ln, expm, src, dest, a1, a2);
    var b := Before2(v, ch, ln, expm, src, dest);
    if Rejected(v, src, dest) == Ok(false) && b.Ok? {
      var w := Swapped(v, src, dest);
      var m := Retyped2(w, ind, ch, ln, expm, src, dest, a1, a2);
      Retyped2Sum(w, ind, ch, ln, expm, src, dest, a1, a2);
      if m.result.Ok? {
        assert r.result == Ok(Sub(b.value, m.result.value)) && r.view == m.view;
        if r.result.value.Finite? {
          SubFinite(b.value, m.result.value);
        }
      } else {
        assert r == m;
      }
    } else {
      assert r.result.Fail? || r.result == Ok(NegInf);
    }
  }

  /**
   * The exchange changes nothing, or it leaves the swapped tree as it is
   * apart from the change lists of src's and dest's branches.
   */
  lemma ExchangedIsLocal(v: seq<NodeRec>, ind: Option<Indicators>, ch: Chain, ln: real -> real,
                         expm: (real, int, int) -> real, src: int, dest: int, a1: Attempt, a2: Attempt)
    requires Shaped(v) && FitsOpt(ind, v) && 0 <= src < |v| && 0 <= dest < |v| && v[src].parent != -1
    ensures var r := Exchanged(v, ind, ch, ln, expm, src, dest, a1, a2);
      (r.view == v && r.params == ind) ||
      (Rejected(v, src, dest) == Ok(false) && v[dest].parent != -1 &&
       Framed(Swapped(v, src, dest), r.view) &&
       forall i :: 0 <= i < |v| && i != src && i != dest ==> r.view[i] == Swapped(v, src, dest)[i])
  {
    var r := Exchanged(v, ind, ch, ln, expm, src, dest, a1, a2);
    if Rejected(v, src, dest) == Ok(false) && Before2(v, ch, ln, expm, src, dest).Ok? {
      var w := Swapped(v, src, dest);
      ChainIsLocal(w, ind, ch, ln, expm, src, dest, a1, a2);
      assert r.view == Retyped2(w, ind, ch, ln, expm, src, dest, a1, a2).view;
    }
  }

  /* ---------------------------------------------------------------------
   * The exchange on the tree.
   */

  /** Narrow selection on the tree, as NarrowPair states it. */
  method SelectNarrow(t: SeedbankTree, picks: seq<nat>) returns (r: Result<Pair>)
    requires t.Wf()
    ensures r == NarrowPair(t.View(), picks)
  {
    var v := t.View();
    var s := DrawUntil(|t.nodes|, picks, k => NarrowSource(v, k));
    if s.Fail? {
      return Fail(s.error);
    }
    var src := s.value.0;
    var sp := v[src].parent;
    var other := OtherChild(v[v[sp].parent].children, sp);
    if other.Fail? {
      return Fail(other.error);
    }
    r := if other.value == -1 then Fail(NullPointer) else Ok(Pair(src, other.value));
  }

  /** Wide selection on the tree, as WidePair states it. */
  method SelectWide(t: SeedbankTree, picks: seq<nat>) returns (r: Result<Pair>)
    requires t.Wf()
    ensures r == WidePair(t.View(), picks)
  {
    r := WideOn(t.View(), picks);
  }

  /** Wide selection on a snapshot of the nodes. */
  method WideOn(v: seq<NodeRec>, picks: seq<nat>) returns (r: Result<Pair>)
    requires Shaped(v) && |v| > 0
    ensures r == WidePair(v, picks)
  {
    var s := DrawSource(v, picks);
    if s.Fail? {
      return Fail(s.error);
    }
    var src := s.value.0;
    var d := DrawDest(v, src, picks[s.value.1 + 1..]);
    if d.Fail? {
      return Fail(d.error);
    }
    r := Ok(Pair(src, d.value.0));
  }

  /** The src draws of wide mode, as WideSourceDraw states them. */
  method DrawSource(v: seq<NodeRec>, picks: seq<nat>) returns (r: Result<(int, nat)>)
    requires |v| > 0
    ensures r == WideSourceDraw(v, picks)
  {
    r := DrawUntil(|v|, picks, k => WideSource(v, k));
  }

  /** The dest draws of wide mode, as WideDestDraw states them. */
  method DrawDest(v: seq<NodeRec>, src: int, rest: seq<nat>) returns (r: Result<(int, nat)>)
    requires 0 <= src < |v|
    ensures r == WideDestDraw(v, src, rest)
  {
    r := DrawUntil(|v|, rest, k => WideDest(v, src, k));
  }

  /** The rejection test on the tree, as Rejected states it. */
  method CheckHeights(t: SeedbankTree, src: int, dest: int) returns (r: Result<bool>)
    requires t.Wf() && 0 <= src < |t.nodes| && 0 <= dest < |t.nodes| && t.View()[src].parent != -1
    ensures r == Rejected(t.View(), src, dest)
  {
    var s := t.nodes[src];
    var d := t.nodes[dest];
    assert t.View()[src] == s.Record() && t.View()[dest] == d.Record();
    assert t.View()[s.parent] == t.nodes[s.parent].Record();
    if d.height >= t.nodes[s.parent].height {
      return Ok(true);
    }
    if d.parent == -1 {
      return Fail(NullPointer);
    }
    assert t.View()[d.parent] == t.nodes[d.parent].Record();
    r := Ok(s.height >= t.nodes[d.parent].height);
  }

  /** The two replace calls on the tree, as Swapped states them. */
  method SwapAt(t: SeedbankTree, src: int, dest: int)
    requires t.Wf() && 0 <= src < |t.nodes| && 0 <= dest < |t.nodes|
    requires t.View()[src].parent != -1 && t.View()[dest].parent != -1
    modifies t.nodes
    ensures t.Wf() && t.nodes == old(t.nodes)
    ensures t.View() == Swapped(old(t.View()), src, dest)
  {
    var sp := t.nodes[src].parent;
    var dp := t.nodes[dest].parent;
    assert t.View()[src] == t.nodes[src].Record() && t.View()[dest] == t.nodes[dest].Record();
    ReplaceAt(t, sp, src, dest);
    ReplaceAt(t, dp, dest, src);
  }

  /** The swap and the two retypes on the tree, after the test has passed. */
  method SwapAndRetype(t: SeedbankTree, lambdas: array?<Double>, etas: array?<int>, ch: Chain, ln: real -> real,
                       expm: (real, int, int) -> real, src: int, dest: int, before: Double, a1: Attempt, a2: Attempt)
    returns (r: Result<Double>)
    requires t.Wf() && 0 <= src < |t.nodes| && 0 <= dest < |t.nodes|
    requires t.View()[src].parent != -1 && t.View()[dest].parent != -1
    requires lambdas != null ==> lambdas.Length == |t.nodes|
    requires etas != null ==> etas.Length == |t.nodes|
    modifies t.nodes, lambdas, etas
    ensures t.Wf()
    ensures Move(r, t.View(), ParamsOf(lambdas, etas)) ==
      Finish(Retyped2(Swapped(old(t.View()), src, dest), old(ParamsOf(lambdas, etas)), ch, ln, expm, src, dest, a1, a2),
             before)
  {
    SwapAt(t, src, dest);
    var acc := RetypeTwo(t, lambdas, etas, ch, ln, expm, src, dest, a1, a2);
    r := if acc.Fail? then acc else Ok(Sub(before, acc.value));
  }

  /** The selection on the tree, as Selected states it. */
  method SelectPair(t: SeedbankTree, narrow: bool, picks: seq<nat>) returns (r: Result<Pair>)
    requires t.Wf()
    ensures r == Selected(t.View(), narrow, picks)
  {
    if |t.nodes| == 0 {
      r := Fail(IllegalArgument);
    } else if narrow {
      r := SelectNarrow(t, picks);
    } else {
      r := SelectWide(t, picks);
    }
  }

  /** What the move finds before it changes anything, on the tree, as Prepared states it. */
  method PrepareAt(t: SeedbankTree, ch: Chain, ln: real -> real, expm: (real, int, int) -> real, src: int, dest: int)
    returns (r: Result<Option<Double>>)
    requires t.Wf() && 0 <= src < |t.nodes| && 0 <= dest < |t.nodes| && t.View()[src].parent != -1
    ensures r == Prepared(t.View(), ch, ln, expm, src, dest)
  {
    var rejected := CheckHeights(t, src, dest);
    if rejected.Fail? {
      return Fail(rejected.error);
    }
    if rejected.value {
      return Ok(None);
    }
    var before := ProbOfTwo(t, ch, ln, expm, src, dest);
    assert before.Ok?;
    r := Ok(Some(before.value));
  }

  /** The move on a selected pair, on the tree, as Exchanged states it. */
  method ExchangeAt(t: SeedbankTree, lambdas: array?<Double>, etas: array?<int>, ch: Chain, ln: real -> real,
                    expm: (real, int, int) -> real, src: int, dest: int, a1: Attempt, a2: Attempt)
    returns (r: Result<Double>)
    requires t.Wf() && 0 <= src < |t.nodes| && 0 <= dest < |t.nodes| && t.View()[src].parent != -1
    requires lambdas != null ==> lambdas.Length == |t.nodes|
    requires etas != null ==> etas.Length == |t.nodes|
    modifies t.nodes, lambdas, etas
    ensures t.Wf()
    ensures Move(r, t.View(), ParamsOf(lambdas, etas)) ==
      Exchanged(old(t.View()), old(ParamsOf(lambdas, etas)), ch, ln, expm, src, dest, a1, a2)
  {
    var p := PrepareAt(t, ch, ln, expm, src, dest);
    if p.Fail? {
      return Fail(p.error);
    }
    if p.value.None? {
      return Ok(NegInf);
    }
    r := SwapAndRetype(t, lambdas, etas, ch, ln, expm, src, dest, p.value.value, a1, a2);
  }

  /** proposal() on the tree, as Exchange states it. */
  method Proposal(t: SeedbankTree, lambdas: array?<Double>, etas: array?<int>, ch: Chain, ln: real -> real,
                  expm: (real, int, int) -> real, narrow: bool, picks: seq<nat>, a1: Attempt, a2: Attempt)
    returns (r: Result<Double>)
    requires t.Wf()
    requires lambdas != null ==> lambdas.Length == |t.nodes|
    requires etas != null ==> etas.Length == |t.nodes|
    modifies t.nodes, lambdas, etas
    ensures t.Wf()
    ensures Move(r, t.View(), ParamsOf(lambdas, etas)) ==
      Exchange(old(t.View()), old(ParamsOf(lambdas, etas)), ch, ln, expm, narrow, picks, a1, a2)
  {
    var p := SelectPair(t, narrow, picks);
    if p.Fail? {
      return Fail(p.error);
    }
    r := ExchangeAt(t, lambdas, etas, ch, ln, expm, p.value.src, p.value.dest, a1, a2);
  }
}
