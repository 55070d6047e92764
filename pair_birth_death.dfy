// Type-change pair birth and death: SeedbankTreePairBirthDeath, and its
// one-sided variants SeedbankTreePairBirth and SeedbankTreePairDeath.
//
// The branches above the non-root nodes, taken in node order, are cut by
// their type changes into sub-edges: a branch with c changes has c + 1 of
// them, numbered from the node upwards. A proposal draws one sub-edge;
// a birth puts two new changes on it (a short stretch of the other type),
// a death removes the two changes around it.
//
// The random draws are parameters: `pick` stands for the Randomizer.nextInt
// draw (reduced modulo its bound) and `u`, `u1`, `u2` for the
// Randomizer.nextDouble draws, in the order the source makes them.

module PairMoves {
  import opened Wrappers
  import opened Doubles
  import opened SeedbankNodes
  import opened SeedbankTrees
  import opened TreeSurgery
  import opened Retype

  /* ---------------------------------------------------------------------
   * Numbering the sub-edges.
   */

  /** Where the walk over the non-root branches stops: on sub-edge `local` of a branch, or past the last branch with `rest` left over. */
  datatype Walk = Found(node: int, local: int) | Missed(rest: int)

  /** Number of sub-edges on the branches above nodes 0..k-1. */
  function SubEdgesBefore(v: seq<NodeRec>, k: int): (r: int)
    requires Shaped(v) && 0 <= k <= |v|
    ensures r >= 0
  {
    if k == 0 then 0
    else SubEdgesBefore(v, k - 1) + (if v[k - 1].parent == -1 then 0 else v[k - 1].changeCount + 1)
  }

  /** Number of non-root nodes. */
  function NonRoots(v: seq<NodeRec>): nat
  {
    if |v| == 0 then 0 else NonRoots(v[..|v| - 1]) + (if v[|v| - 1].parent == -1 then 0 else 1)
  }

  /** A branch counts one sub-edge more than it has changes. */
  lemma {:induction false} SubEdgesCount(v: seq<NodeRec>, k: int)
    requires Shaped(v) && 0 <= k <= |v|
    ensures SubEdgesBefore(v, k) == ChangesOfNonRoots(v[..k]) + NonRoots(v[..k])
    decreases k
  {
    if k > 0 {
      SubEdgesCount(v, k - 1);
      assert v[..k][..k - 1] == v[..k - 1];
    }
  }

  lemma {:induction false} SubEdgesGrow(v: seq<NodeRec>, i: int, j: int)
    requires Shaped(v) && 0 <= i <= j <= |v|
    ensures SubEdgesBefore(v, i) <= SubEdgesBefore(v, j)
    decreases j - i
  {
    if i < j {
      SubEdgesGrow(v, i, j - 1);
    }
  }

  /**
   * The loop of proposal() from node `from` on: the root is skipped, a
   * branch owning more than edgeNum sub-edges is chosen, and otherwise its
   * sub-edges are subtracted from edgeNum and the walk goes on.
   */
  function Located(v: seq<NodeRec>, from: int, edgeNum: int): (r: Walk)
    requires Shaped(v) && 0 <= from <= |v| && edgeNum >= 0
    ensures r.Found? ==> from <= r.node < |v| && v[r.node].parent != -1 && 0 <= r.local <= v[r.node].changeCount
    decreases |v| - from
  {
    if from == |v| then Missed(edgeNum)
    else if v[from].parent == -1 then Located(v, from + 1, edgeNum)
    else if edgeNum < v[from].changeCount + 1 then Found(from, edgeNum)
    else Located(v, from + 1, edgeNum - (v[from].changeCount + 1))
  }

  /**
   * The walk numbers the sub-edges consecutively: it stops on a branch
   * exactly when the number is below the sub-edges still ahead, and the
   * sub-edge it stops on is the one with that number; otherwise it runs
   * past the end with the excess left over.
   */
  lemma {:induction false} LocatedNumbering(v: seq<NodeRec>, from: int, edgeNum: int)
    requires Shaped(v) && 0 <= from <= |v| && edgeNum >= 0
    ensures var ahead := SubEdgesBefore(v, |v|) - SubEdgesBefore(v, from);
      Located(v, from, edgeNum).Found? <==> edgeNum < ahead
    ensures var w := Located(v, from, edgeNum);
      w.Found? ==> SubEdgesBefore(v, from) + edgeNum == SubEdgesBefore(v, w.node) + w.local
    ensures var w := Located(v, from, edgeNum);
      w.Missed? ==> w.rest == edgeNum - (SubEdgesBefore(v, |v|) - SubEdgesBefore(v, from))
    decreases |v| - from
  {
    if from < |v| {
      SubEdgesGrow(v, from + 1, |v|);
      if v[from].parent == -1 {
        LocatedNumbering(v, from + 1, edgeNum);
      } else if edgeNum >= v[from].changeCount + 1 {
        LocatedNumbering(v, from + 1, edgeNum - (v[from].changeCount + 1));
      }
    }
  }

  /**
   * The draw of proposal(): Randomizer.nextInt(2n - 2 + m) for n leaves and
   * m changes, which raises IllegalArgumentException on a bound below 1.
   */
  function SubEdgeDraw(v: seq<NodeRec>, leafCount: int, pick: nat): (r: Result<int>)
    ensures r.Ok? ==> 0 <= r.value < 2 * leafCount - 2 + ChangesOfNonRoots(v)
    ensures r.Fail? <==> 2 * leafCount - 2 + ChangesOfNonRoots(v) <= 0
  {
    var bound := 2 * leafCount - 2 + ChangesOfNonRoots(v);
    if bound <= 0 then Fail(IllegalArgument) else Ok(pick % bound)
  }

  /**
   * On a tree with 2n - 2 non-root nodes for its n leaves (a binary tree),
   * every drawn sub-edge number falls on a branch.
   */
  lemma DrawnSubEdgeIsFound(v: seq<NodeRec>, leafCount: int, pick: nat)
    requires Shaped(v) && NonRoots(v) == 2 * leafCount - 2
    requires SubEdgeDraw(v, leafCount, pick).Ok?
    ensures Located(v, 0, SubEdgeDraw(v, leafCount, pick).value).Found?
  {
    SubEdgesCount(v, |v|);
    assert v[..|v|] == v;
    LocatedNumbering(v, 0, SubEdgeDraw(v, leafCount, pick).value);
  }

  /** The walk loop of proposal(): non-root nodes in node order until the sub-edge is found. */
  method Locate(t: SeedbankTree, edgeNum: int) returns (w: Walk)
    requires t.Wf() && edgeNum >= 0
    ensures w == Located(t.View(), 0, edgeNum)
  {
    ghost var v := t.View();
    var e := edgeNum;
    var i := 0;
    while i < |t.nodes|
      invariant 0 <= i <= |t.nodes| && e >= 0
      invariant Located(v, i, e) == Located(v, 0, edgeNum)
    {
      var n := t.nodes[i];
      assert n.Record() == v[i];
      if n.parent != -1 {
        if e < n.nTypeChanges + 1 {
          return Found(i, e);
        }
        e := e - (n.nTypeChanges + 1);
      }
      i := i + 1;
    }
    return Missed(e);
  }

  /* ---------------------------------------------------------------------
   * A sub-edge's ends and type.
   */

  /** Where sub-edge j starts: at the node, or at the change below it. */
  function SubStart(n: NodeRec, j: int): real
    requires n.Consistent() && 0 <= j <= n.changeCount
  {
    if j == 0 then n.height else n.changeTimes[j - 1]
  }

  /** Where sub-edge j ends: at the change above it, or at the parent (height `top`) past the last change. */
  function SubEnd(n: NodeRec, j: int, top: real): real
    requires n.Consistent() && 0 <= j
  {
    if j > n.changeCount - 1 then top else n.changeTimes[j]
  }

  /** Math.min and Math.max of two doubles, as a pair. */
  function Ordered(a: real, b: real): (r: (real, real))
    ensures r.0 <= r.1 && ((r.0 == a && r.1 == b) || (r.0 == b && r.1 == a))
  {
    if a <= b then (a, b) else (b, a)
  }

  /** A draw in [0, 1] spread over [ts, tr] lands inside it. */
  lemma DrawnBetween(u: real, ts: real, tr: real)
    requires 0.0 <= u <= 1.0 && ts <= tr
    ensures ts <= VirtualTime(u, tr - ts, ts) <= tr
  {
    var len := tr - ts;
    assert len >= 0.0;
    assert u * len >= 0.0;
    assert (1.0 - u) * len >= 0.0;
    assert VirtualTime(u, len, ts) == u * len + ts;
  }

  /* ---------------------------------------------------------------------
   * Birth and death on one branch.
   */

  /** tauMin and tauMax: two draws spread over [ts, tr], in order. */
  function Taus(ts: real, tr: real, u1: real, u2: real): (real, real)
  {
    Ordered(VirtualTime(u1, tr - ts, ts), VirtualTime(u2, tr - ts, ts))
  }

  /** The birth times on sub-edge e of branch n below a parent at height top. */
  function BirthTimes(n: NodeRec, e: int, top: real, u1: real, u2: real): (real, real)
    requires n.Consistent() && 0 <= e <= n.changeCount
  {
    Taus(SubStart(n, e), SubEnd(n, e, top), u1, u2)
  }

  /**
   * The branch after a birth on sub-edge e: a change to the other type at
   * tau.0 and a change back to the old type at tau.1 cut the sub-edge.
   */
  function BornNode(n: NodeRec, e: int, tau: (real, real)): (r: NodeRec)
    requires n.Consistent() && 0 <= e <= n.changeCount
    ensures r.Consistent() && r.changeCount == n.changeCount + 2
  {
    var ty := Before(n.nodeType, n.changeTypes, e);
    n.(changeTypes := n.changeTypes[..e] + [1 - ty, ty] + n.changeTypes[e..],
       changeTimes := n.changeTimes[..e] + [tau.0, tau.1] + n.changeTimes[e..],
       changeCount := n.changeCount + 2)
  }

  /** The branch after a death around sub-edge d: changes d - 1 and d removed. */
  function DiedNode(n: NodeRec, d: int): (r: NodeRec)
    requires n.Consistent() && 1 <= d < n.changeCount
    ensures r.Consistent() && r.changeCount == n.changeCount - 2
  {
    n.(changeTypes := n.changeTypes[..d - 1] + n.changeTypes[d + 1..],
       changeTimes := n.changeTimes[..d - 1] + n.changeTimes[d + 1..],
       changeCount := n.changeCount - 2)
  }

  /** Two insertions at the same index leave the second inserted item first. */
  lemma InsertTwice<T>(s: seq<T>, idx: int, x: T, y: T)
    requires 0 <= idx <= |s|
    ensures InsertAt(InsertAt(s, idx, x), idx, y) == s[..idx] + [y, x] + s[idx..]
  {
    var s1 := InsertAt(s, idx, x);
    assert s1[..idx] == s[..idx];
    assert s1[idx..] == [x] + s[idx..];
  }

  /** Two removals at the same index drop the item there and the one after it. */
  lemma RemoveTwice<T>(s: seq<T>, idx: int)
    requires 0 <= idx && idx + 1 < |s|
    ensures RemoveAt(RemoveAt(s, idx), idx) == s[..idx] + s[idx + 2..]
  {
    var s1 := RemoveAt(s, idx);
    assert s1[..idx] == s[..idx];
    assert s1[idx + 1..] == s[idx + 2..];
  }

  /** insertChange(e, old type, tauMax) then insertChange(e, new type, tauMin) on branch k. */
  function Born(v: seq<NodeRec>, k: int, e: int, u1: real, u2: real): (w: seq<NodeRec>)
    requires Shaped(v) && 0 <= k < |v| && v[k].parent != -1 && 0 <= e <= v[k].changeCount
    ensures Shaped(w) && |w| == |v|
    ensures w == v[k := BornNode(v[k], e, BirthTimes(v[k], e, v[v[k].parent].height, u1, u2))]
  {
    var n := v[k];
    var tau := BirthTimes(n, e, v[n.parent].height, u1, u2);
    var ty := Before(n.nodeType, n.changeTypes, e);
    InsertTwice(n.changeTypes, e, ty, 1 - ty);
    InsertTwice(n.changeTimes, e, tau.1, tau.0);
    InsertedIn(InsertedIn(v, k, e, ty, tau.1), k, e, 1 - ty, tau.0)
  }

  /** removeChange(d - 1) twice on branch k. */
  function Died(v: seq<NodeRec>, k: int, d: int): (w: seq<NodeRec>)
    requires Shaped(v) && 0 <= k < |v| && 1 <= d < v[k].changeCount
    ensures Shaped(w) && |w| == |v|
    ensures w == v[k := DiedNode(v[k], d)]
  {
    RemoveTwice(v[k].changeTypes, d - 1);
    RemoveTwice(v[k].changeTimes, d - 1);
    RemovedIn(RemovedIn(v, k, d - 1), k, d - 1)
  }

  /* ---------------------------------------------------------------------
   * The Hastings ratios.
   */

  function Squared(x: real): real { x * x }

  /** log((m + 2n - 2)(tr - ts)^2) - log(2(m + 2n)) for n leaves and m changes. */
  function BirthLogHR(ln: real -> real, n: int, m: int, ts: real, tr: real): Double
  {
    Sub(LogOf(ln, (m + 2 * n - 2) as real * Squared(tr - ts)), LogOf(ln, (2 * (m + 2 * n)) as real))
  }

  /** log(2(m + 2n - 2)) - log((m + 2n - 4)(tr - ts)^2) for n leaves and m changes. */
  function DeathLogHR(ln: real -> real, n: int, m: int, ts: real, tr: real): Double
  {
    Sub(LogOf(ln, (2 * (m + 2 * n - 2)) as real), LogOf(ln, (m + 2 * n - 4) as real * Squared(tr - ts)))
  }

  /** With two more changes on the tree, the death ratio over the same stretch is the birth ratio negated. */
  lemma RatiosCancel(ln: real -> real, n: int, m: int, ts: real, tr: real)
    ensures DeathLogHR(ln, n, m + 2, ts, tr) == Neg(BirthLogHR(ln, n, m, ts, tr))
  {
    assert (m + 2) + 2 * n - 4 == m + 2 * n - 2;
    assert 2 * ((m + 2) + 2 * n - 2) == 2 * (m + 2 * n);
    NegatedDifference(LogOf(ln, (m + 2 * n - 2) as real * Squared(tr - ts)), LogOf(ln, (2 * (m + 2 * n)) as real));
  }

  /* ---------------------------------------------------------------------
   * The proposals.
   */

  /** What a proposal leaves: its result (the log Hastings ratio) and the arena. */
  datatype Edited = Edited(result: Result<Double>, view: seq<NodeRec>)

  predicate OnTree(v: seq<NodeRec>, w: Walk)
    requires Shaped(v)
  {
    w.Found? ==> 0 <= w.node < |v| && v[w.node].parent != -1 && 0 <= w.local <= v[w.node].changeCount
  }

  /**
   * birthProposal on the walk's result: no branch raises
   * NullPointerException; with dormantOnly a birth on a dormant (type 0)
   * sub-edge is refused; otherwise the two changes are born.
   */
  function Birth(v: seq<NodeRec>, leafCount: int, dormantOnly: bool, w: Walk, u1: real, u2: real,
                 ln: real -> real): (r: Edited)
    requires Shaped(v) && OnTree(v, w)
    ensures r.result.Ok? && r.result.value != NegInf ==> w.Found?
  {
    match w
    case Missed(_) => Edited(Fail(NullPointer), v)
    case Found(k, e) =>
      var n := v[k];
      if dormantOnly && Before(n.nodeType, n.changeTypes, e) == 0 then Edited(Ok(NegInf), v)
      else
        var hr := BirthLogHR(ln, leafCount, ChangesOfNonRoots(v), SubStart(n, e), SubEnd(n, e, v[n.parent].height));
        Edited(Ok(hr), Born(v, k, e, u1, u2))
  }

  /**
   * deathProposal on the walk's result: a sub-edge without a change on
   * each side (the first or last of its branch) is refused; with no branch
   * the same test is made on the left-over number before the missing node
   * is read.
   */
  function Death(v: seq<NodeRec>, leafCount: int, w: Walk, ln: real -> real): (r: Edited)
    requires Shaped(v) && OnTree(v, w)
  {
    match w
    case Missed(rest) => if rest < 1 then Edited(Ok(NegInf), v) else Edited(Fail(NullPointer), v)
    case Found(k, d) =>
      var n := v[k];
      if d < 1 || d + 1 > n.changeCount then Edited(Ok(NegInf), v)
      else
        var hr := DeathLogHR(ln, leafCount, ChangesOfNonRoots(v), SubStart(n, d - 1), SubEnd(n, d + 1, v[n.parent].height));
        Edited(Ok(hr), Died(v, k, d))
  }

  /** SeedbankTreePairBirthDeath.proposal: the draw, the walk, then a birth when u < 0.5 and a death otherwise. */
  function BirthOrDeath(v: seq<NodeRec>, leafCount: int, pick: nat, u: real, u1: real, u2: real, ln: real -> real): (r: Edited)
    requires Shaped(v)
  {
    match SubEdgeDraw(v, leafCount, pick)
    case Fail(e) => Edited(Fail(e), v)
    case Ok(edgeNum) =>
      var w := Located(v, 0, edgeNum);
      if u < 0.5 then Birth(v, leafCount, false, w, u1, u2, ln) else Death(v, leafCount, w, ln)
  }

  /** SeedbankTreePairBirth.proposal: the draw, the walk, then a birth. */
  function PairBirth(v: seq<NodeRec>, leafCount: int, dormantOnly: bool, pick: nat, u1: real, u2: real,
                     ln: real -> real): (r: Edited)
    requires Shaped(v)
  {
    match SubEdgeDraw(v, leafCount, pick)
    case Fail(e) => Edited(Fail(e), v)
    case Ok(edgeNum) => Birth(v, leafCount, dormantOnly, Located(v, 0, edgeNum), u1, u2, ln)
  }

  /** SeedbankTreePairDeath.proposal: the draw, the walk, then a death. */
  function PairDeath(v: seq<NodeRec>, leafCount: int, pick: nat, ln: real -> real): (r: Edited)
    requires Shaped(v)
  {
    match SubEdgeDraw(v, leafCount, pick)
    case Fail(e) => Edited(Fail(e), v)
    case Ok(edgeNum) => Death(v, leafCount, Located(v, 0, edgeNum), ln)
  }

  method PairBirthDeathProposal(t: SeedbankTree, pick: nat, u: real, u1: real, u2: real, ln: real -> real)
    returns (r: Result<Double>)
    requires t.Wf()
    modifies t.nodes
    ensures t.Wf()
    ensures var s := BirthOrDeath(old(t.View()), old(t.leafNodeCount), pick, u, u1, u2, ln);
      r == s.result && t.View() == s.view
  {
    var w := Draw(t, pick);
    if w.Fail? {
      return Fail(w.error);
    }
    if u < 0.5 {
      r := BirthOn(t, false, w.value, u1, u2, ln);
    } else {
      r := DeathOn(t, w.value, ln);
    }
  }

  method PairBirthProposal(t: SeedbankTree, dormantOnly: bool, pick: nat, u1: real, u2: real, ln: real -> real)
    returns (r: Result<Double>)
    requires t.Wf()
    modifies t.nodes
    ensures t.Wf()
    ensures var s := PairBirth(old(t.View()), old(t.leafNodeCount), dormantOnly, pick, u1, u2, ln);
      r == s.result && t.View() == s.view
  {
    var w := Draw(t, pick);
    if w.Fail? {
      return Fail(w.error);
    }
    r := BirthOn(t, dormantOnly, w.value, u1, u2, ln);
  }

  method PairDeathProposal(t: SeedbankTree, pick: nat, ln: real -> real) returns (r: Result<Double>)
    requires t.Wf()
    modifies t.nodes
    ensures t.Wf()
    ensures var s := PairDeath(old(t.View()), old(t.leafNodeCount), pick, ln);
      r == s.result && t.View() == s.view
  {
    var w := Draw(t, pick);
    if w.Fail? {
      return Fail(w.error);
    }
    r := DeathOn(t, w.value, ln);
  }

  /** The sub-edge draw and the walk; the tree is only read. */
  method Draw(t: SeedbankTree, pick: nat) returns (r: Result<Walk>)
    requires t.Wf()
    ensures match SubEdgeDraw(t.View(), t.leafNodeCount, pick)
      case Fail(e) => r == Fail(e)
      case Ok(edgeNum) => r == Ok(Located(t.View(), 0, edgeNum))
  {
    var m := GetTotalNumberOfChanges(t.View());
    var bound := 2 * t.leafNodeCount - 2 + m;
    if bound <= 0 {
      return Fail(IllegalArgument);
    }
    var w := Locate(t, pick % bound);
    return Ok(w);
  }

  /** birthProposal on the tree. */
  method BirthOn(t: SeedbankTree, dormantOnly: bool, w: Walk, u1: real, u2: real, ln: real -> real)
    returns (r: Result<Double>)
    requires t.Wf() && OnTree(t.View(), w)
    modifies t.nodes
    ensures t.Wf()
    ensures var s := Birth(old(t.View()), old(t.leafNodeCount), dormantOnly, w, u1, u2, ln);
      r == s.result && t.View() == s.view
  {
    if w.Missed? {
      return Fail(NullPointer);
    }
    ghost var v := t.View();
    var k := w.node;
    var e := w.local;
    var ty, ts, tr := SubEdgeAt(t, k, e);
    if ty == 0 && dormantOnly {
      return Ok(NegInf);
    }
    var m := GetTotalNumberOfChanges(t.View());
    var tau := Taus(ts, tr, u1, u2);
    BirthIs(v, t.leafNodeCount, dormantOnly, k, e, u1, u2, ln, ty, ts, tr, m);
    InsertPair(t, k, e, ty, tau.0, tau.1);
    r := Ok(BirthLogHR(ln, t.leafNodeCount, m, ts, tr));
  }

  /** insertChange(e, ty, hi) then insertChange(e, 1 - ty, lo) on branch k. */
  method InsertPair(t: SeedbankTree, k: int, e: int, ty: int, lo: real, hi: real)
    requires t.Wf() && 0 <= k < |t.nodes| && 0 <= e <= t.View()[k].changeCount
    modifies t.nodes[k]
    ensures t.Wf()
    ensures t.View() == InsertedIn(InsertedIn(old(t.View()), k, e, ty, hi), k, e, 1 - ty, lo)
  {
    InsertChangeAt(t, k, e, ty, hi);
    InsertChangeAt(t, k, e, 1 - ty, lo);
  }

  /** removeChange(d - 1) twice on branch k. */
  method RemovePair(t: SeedbankTree, k: int, d: int)
    requires t.Wf() && 0 <= k < |t.nodes| && 1 <= d < t.View()[k].changeCount
    modifies t.nodes[k]
    ensures t.Wf()
    ensures t.View() == Died(old(t.View()), k, d)
  {
    RemoveChangeAt(t, k, d - 1);
    RemoveChangeAt(t, k, d - 1);
  }

  /** The type, start and end of sub-edge e of branch k. */
  method SubEdgeAt(t: SeedbankTree, k: int, e: int) returns (ty: int, ts: real, tr: real)
    requires t.Wf() && 0 <= k < |t.nodes| && t.View()[k].parent != -1 && 0 <= e <= t.View()[k].changeCount
    ensures var n := t.View()[k];
      ty == Before(n.nodeType, n.changeTypes, e) && ts == SubStart(n, e) && tr == SubEnd(n, e, t.View()[n.parent].height)
  {
    var n := t.nodes[k];
    assert n.Record() == t.View()[k];
    ty := if e == 0 then n.nodeType else n.changeTypes[e - 1];
    ts := if e == 0 then n.height else n.changeTimes[e - 1];
    tr := if e > n.nTypeChanges - 1 then t.nodes[n.parent].height else n.changeTimes[e];
  }

  /** Birth on a found sub-edge, for its type and ends and the tree's change count read from v. */
  lemma BirthIs(v: seq<NodeRec>, leafCount: int, dormantOnly: bool, k: int, e: int, u1: real, u2: real, ln: real -> real,
                ty: int, ts: real, tr: real, m: int)
    requires Shaped(v) && 0 <= k < |v| && v[k].parent != -1 && 0 <= e <= v[k].changeCount
    requires ty == Before(v[k].nodeType, v[k].changeTypes, e) && !(ty == 0 && dormantOnly)
    requires ts == SubStart(v[k], e) && tr == SubEnd(v[k], e, v[v[k].parent].height) && m == ChangesOfNonRoots(v)
    ensures Birth(v, leafCount, dormantOnly, Found(k, e), u1, u2, ln).result == Ok(BirthLogHR(ln, leafCount, m, ts, tr))
    ensures var tau := Taus(ts, tr, u1, u2);
      Birth(v, leafCount, dormantOnly, Found(k, e), u1, u2, ln).view
      == InsertedIn(InsertedIn(v, k, e, ty, tau.1), k, e, 1 - ty, tau.0)
  {
    var tau := BirthTimes(v[k], e, v[v[k].parent].height, u1, u2);
    assert tau == Taus(ts, tr, u1, u2);
    assert Born(v, k, e, u1, u2) == InsertedIn(InsertedIn(v, k, e, ty, tau.1), k, e, 1 - ty, tau.0);
  }

  /** deathProposal on the tree. */
  method DeathOn(t: SeedbankTree, w: Walk, ln: real -> real) returns (r: Result<Double>)
    requires t.Wf() && OnTree(t.View(), w)
    modifies t.nodes
    ensures t.Wf()
    ensures var s := Death(old(t.View()), old(t.leafNodeCount), w, ln);
      r == s.result && t.View() == s.view
  {
    if w.Missed? {
      return if w.rest < 1 then Ok(NegInf) else Fail(NullPointer);
    }
    ghost var v := t.View();
    var k := w.node;
    var d := w.local;
    var n := t.nodes[k];
    assert n.Record() == v[k];
    if d < 1 || d + 1 > n.nTypeChanges {
      return Ok(NegInf);
    }
    var ts := if d - 1 == 0 then n.height else n.changeTimes[d - 2];
    var tr := if d + 1 > n.nTypeChanges - 1 then t.nodes[n.parent].height else n.changeTimes[d + 1];
    assert tr == SubEnd(v[k], d + 1, v[v[k].parent].height);
    var m := GetTotalNumberOfChanges(t.View());
    RemovePair(t, k, d);
    r := Ok(DeathLogHR(ln, t.leafNodeCount, m, ts, tr));
  }

  /* ---------------------------------------------------------------------
   * What a birth and a death do to a branch.
   */

  /** A birth adds two changes to the tree's count, a death removes two. */
  lemma BirthAndDeathCounts(v: seq<NodeRec>, k: int, e: int, d: int, u1: real, u2: real)
    requires Shaped(v) && 0 <= k < |v| && v[k].parent != -1 && 0 <= e <= v[k].changeCount
    ensures ChangesOfNonRoots(Born(v, k, e, u1, u2)) == ChangesOfNonRoots(v) + 2
    ensures 1 <= d < v[k].changeCount ==> ChangesOfNonRoots(Died(v, k, d)) == ChangesOfNonRoots(v) - 2
  {
    var top := v[v[k].parent].height;
    ChangesOfNonRootsUpdate(v, k, BornNode(v[k], e, BirthTimes(v[k], e, top, u1, u2)));
    if 1 <= d < v[k].changeCount {
      ChangesOfNonRootsUpdate(v, k, DiedNode(v[k], d));
    }
  }

  /** A birth brings the branch back to its old type right away, so the type at the top of the branch is unchanged. */
  lemma BornKeepsFinalType(n: NodeRec, e: int, tau: (real, real))
    requires n.Consistent() && 0 <= e <= n.changeCount
    ensures FinalType(n.nodeType, BornNode(n, e, tau).changeTypes) == FinalType(n.nodeType, n.changeTypes)
  {
    var b := BornNode(n, e, tau).changeTypes;
    if e < n.changeCount {
      assert b[|b| - 1] == n.changeTypes[n.changeCount - 1];
    }
  }

  /** A branch whose consecutive types differ keeps that property through a birth. */
  lemma BornKeepsAlternation(n: NodeRec, e: int, tau: (real, real))
    requires n.Consistent() && 0 <= e <= n.changeCount
    requires Alternating(n.nodeType, n.changeTypes)
    ensures Alternating(n.nodeType, BornNode(n, e, tau).changeTypes)
  {
    var s := n.changeTypes;
    var ty := Before(n.nodeType, s, e);
    var b := BornNode(n, e, tau).changeTypes;
    assert b == s[..e] + [1 - ty, ty] + s[e..];
    forall i | 0 <= i < |b| - 1 ensures b[i] != b[i + 1] {
      if i < e - 1 {
        assert b[i] == s[i] && b[i + 1] == s[i + 1];
      } else if i == e - 1 {
        assert b[i] == s[e - 1] == ty;
      } else if i == e + 1 {
        assert b[i + 1] == s[e];
      } else if i > e + 1 {
        assert b[i] == s[i - 2] && b[i + 1] == s[i - 1];
      }
    }
  }

  /** Inserting two ordered values between neighbours of an ascending sequence keeps it ascending. */
  lemma AscendingInsertPair(s: seq<real>, i: int, a: real, b: real)
    requires Ascending(s) && 0 <= i < |s| - 1
    requires s[i] <= a <= b <= s[i + 1]
    ensures Ascending(s[..i + 1] + [a, b] + s[i + 1..])
  {
    var r := s[..i + 1] + [a, b] + s[i + 1..];
    forall j | 0 <= j < |r| - 1 ensures r[j] <= r[j + 1] {
      if j < i {
        assert r[j] == s[j] && r[j + 1] == s[j + 1];
      } else if j > i + 2 {
        assert r[j] == s[j - 2] && r[j + 1] == s[j - 1];
      }
    }
  }

  /** Dropping two neighbouring inner entries of an ascending sequence keeps it ascending. */
  lemma AscendingRemovePair(s: seq<real>, i: int)
    requires Ascending(s) && 1 <= i && i + 2 < |s|
    ensures Ascending(s[..i] + s[i + 2..])
  {
    var r := s[..i] + s[i + 2..];
    forall j | 0 <= j < |r| - 1 ensures r[j] <= r[j + 1] {
      if j < i - 1 {
        assert r[j] == s[j] && r[j + 1] == s[j + 1];
      } else if j == i - 1 {
        AscendingIsSorted(s, i - 1, i + 2);
      } else {
        assert r[j] == s[j + 2] && r[j + 1] == s[j + 3];
      }
    }
  }

  /** The birth times of draws in [0, 1] lie on the drawn sub-edge, so a time-ordered branch stays time-ordered. */
  lemma BornKeepsOrder(n: NodeRec, e: int, top: real, u1: real, u2: real)
    requires n.Consistent() && 0 <= e <= n.changeCount
    requires BranchTimesOrdered(top, n)
    requires 0.0 <= u1 <= 1.0 && 0.0 <= u2 <= 1.0
    ensures BranchTimesOrdered(top, BornNode(n, e, BirthTimes(n, e, top, u1, u2)))
  {
    var s := [n.height] + n.changeTimes + [top];
    var ts := SubStart(n, e);
    var tr := SubEnd(n, e, top);
    assert s[e] == ts && s[e + 1] == tr;
    AscendingIsSorted(s, e, e + 1);
    DrawnBetween(u1, ts, tr);
    DrawnBetween(u2, ts, tr);
    var tau := BirthTimes(n, e, top, u1, u2);
    AscendingInsertPair(s, e, tau.0, tau.1);
    var b := BornNode(n, e, tau);
    assert [b.height] + b.changeTimes + [top] == s[..e + 1] + [tau.0, tau.1] + s[e + 1..];
  }

  /** A death removes two inner times of an ordered branch, which stays ordered. */
  lemma DiedKeepsOrder(n: NodeRec, d: int, top: real)
    requires n.Consistent() && 1 <= d < n.changeCount
    requires BranchTimesOrdered(top, n)
    ensures BranchTimesOrdered(top, DiedNode(n, d))
  {
    var s := [n.height] + n.changeTimes + [top];
    AscendingRemovePair(s, d);
    var r := DiedNode(n, d);
    assert [r.height] + r.changeTimes + [top] == s[..d] + s[d + 2..];
  }

  /**
   * On a branch of 0/1 types whose consecutive types differ, a death keeps
   * the types alternating and the type at the top of the branch unchanged.
   */
  lemma DiedKeepsTypes(n: NodeRec, d: int)
    requires n.Consistent() && 1 <= d < n.changeCount
    requires n.nodeType == 0 || n.nodeType == 1
    requires AllBinary(n.changeTypes) && Alternating(n.nodeType, n.changeTypes)
    ensures Alternating(n.nodeType, DiedNode(n, d).changeTypes)
    ensures FinalType(n.nodeType, DiedNode(n, d).changeTypes) == FinalType(n.nodeType, n.changeTypes)
  {
    var s := n.changeTypes;
    var r := DiedNode(n, d).changeTypes;
    assert s[d] == Before(n.nodeType, s, d - 1) by {
      assert s[d] != s[d - 1];
      if d >= 2 {
        assert s[d - 1] != s[d - 2];
      }
    }
    forall i | 0 <= i < |r| - 1 ensures r[i] != r[i + 1] {
      if i < d - 2 {
        assert r[i] == s[i] && r[i + 1] == s[i + 1];
      } else if i == d - 2 {
        assert r[i] == s[d - 2] && r[i + 1] == s[d + 1];
        assert s[d + 1] != s[d];
      } else {
        assert r[i] == s[i + 2] && r[i + 1] == s[i + 3];
      }
    }
    if |r| > 0 && d == 1 {
      assert r[0] == s[2];
      assert s[2] != s[1];
    }
    if d + 1 < n.changeCount {
      assert r[|r| - 1] == s[|s| - 1];
    }
  }

  /**
   * A death on the stretch a birth created removes exactly the two new
   * changes: the branch is as before the birth.
   */
  lemma DeathUndoesBirth(n: NodeRec, e: int, tau: (real, real))
    requires n.Consistent() && 0 <= e <= n.changeCount
    ensures DiedNode(BornNode(n, e, tau), e + 1) == n
  {
    var b := BornNode(n, e, tau);
    assert b.changeTypes[..e] + b.changeTypes[e + 2..] == n.changeTypes;
    assert b.changeTimes[..e] + b.changeTimes[e + 2..] == n.changeTimes;
  }

  /**
   * The moves are each other's reverse on the whole tree: after a birth on
   * sub-edge e of branch k, a death on sub-edge e + 1 of that branch gives
   * back the old tree, and its log Hastings ratio is the birth's negated.
   */
  lemma DeathReversesBirth(v: seq<NodeRec>, leafCount: int, k: int, e: int, u1: real, u2: real, ln: real -> real)
    requires Shaped(v) && 0 <= k < |v| && v[k].parent != -1 && 0 <= e <= v[k].changeCount
    ensures var b := Birth(v, leafCount, false, Found(k, e), u1, u2, ln);
      b.result.Ok? && OnTree(b.view, Found(k, e + 1)) &&
      Death(b.view, leafCount, Found(k, e + 1), ln) == Edited(Ok(Neg(b.result.value)), v)
  {
    var n := v[k];
    var top := v[n.parent].height;
    var tau := BirthTimes(n, e, top, u1, u2);
    var bv := Born(v, k, e, u1, u2);
    var bn := BornNode(n, e, tau);
    assert bv == v[k := bn];
    var ts := SubStart(n, e);
    var tr := SubEnd(n, e, top);
    var hr := BirthLogHR(ln, leafCount, ChangesOfNonRoots(v), ts, tr);
    assert Birth(v, leafCount, false, Found(k, e), u1, u2, ln) == Edited(Ok(hr), bv);
    DeathUndoesBirth(n, e, tau);
    assert Died(bv, k, e + 1) == v;
    BirthAndDeathCounts(v, k, e, 0, u1, u2);
    assert SubStart(bn, e) == ts;
    assert SubEnd(bn, e + 2, top) == tr;
    assert Death(bv, leafCount, Found(k, e + 1), ln)
        == Edited(Ok(DeathLogHR(ln, leafCount, ChangesOfNonRoots(v) + 2, ts, tr)), v);
    RatiosCancel(ln, leafCount, ChangesOfNonRoots(v), ts, tr);
  }

  /**
   * A birth or death on an ordered, well-typed tree leaves every branch
   * ordered below its parent and ending in its parent's type (a death when
   * the branch's types are 0/1 and alternate).
   */
  lemma BranchEditKeepsValidity(v: seq<NodeRec>, k: int, r: NodeRec)
    requires Shaped(v) && 0 <= k < |v| && v[k].parent != -1
    requires AllBranchesOrdered(v) && AllTypesMatch(v) && ParentsConsistent(v)
    requires r == v[k].(changeTypes := r.changeTypes, changeTimes := r.changeTimes, changeCount := r.changeCount)
    requires r.Consistent()
    requires BranchTimesOrdered(v[v[k].parent].height, r)
    requires FinalType(r.nodeType, r.changeTypes) == FinalType(v[k].nodeType, v[k].changeTypes)
    ensures Shaped(v[k := r]) && AllBranchesOrdered(v[k := r]) && AllTypesMatch(v[k := r]) && ParentsConsistent(v[k := r])
  {
    ShapedUpdate(v, k, r);
  }

  /** A birth keeps a valid tree valid. */
  lemma BirthKeepsValidity(v: seq<NodeRec>, k: int, e: int, u1: real, u2: real)
    requires Shaped(v) && 0 <= k < |v| && v[k].parent != -1 && 0 <= e <= v[k].changeCount
    requires AllBranchesOrdered(v) && AllTypesMatch(v) && ParentsConsistent(v)
    requires 0.0 <= u1 <= 1.0 && 0.0 <= u2 <= 1.0
    ensures var w := Born(v, k, e, u1, u2);
      AllBranchesOrdered(w) && AllTypesMatch(w) && ParentsConsistent(w)
  {
    var top := v[v[k].parent].height;
    var tau := BirthTimes(v[k], e, top, u1, u2);
    BornKeepsOrder(v[k], e, top, u1, u2);
    BornKeepsFinalType(v[k], e, tau);
    BranchEditKeepsValidity(v, k, BornNode(v[k], e, tau));
  }

  /** A death keeps a valid tree valid when the branch's types are 0/1 and alternate. */
  lemma DeathKeepsValidity(v: seq<NodeRec>, k: int, d: int)
    requires Shaped(v) && 0 <= k < |v| && v[k].parent != -1 && 1 <= d < v[k].changeCount
    requires AllBranchesOrdered(v) && AllTypesMatch(v) && ParentsConsistent(v)
    requires v[k].nodeType == 0 || v[k].nodeType == 1
    requires AllBinary(v[k].changeTypes) && Alternating(v[k].nodeType, v[k].changeTypes)
    ensures var w := Died(v, k, d);
      AllBranchesOrdered(w) && AllTypesMatch(w) && ParentsConsistent(w)
  {
    DiedKeepsOrder(v[k], d, v[v[k].parent].height);
    DiedKeepsTypes(v[k], d);
    BranchEditKeepsValidity(v, k, DiedNode(v[k], d));
  }
}
