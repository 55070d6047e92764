// SeedbankTreeWilsonBalding: prune a random non-root node with its parent
// and regraft the parent at a uniformly chosen time on the active stretches
// of another branch. A change to type 0 ends an active (type 1) stretch,
// and the top stretch below the parent is active.

module WilsonBalding {
  import opened Wrappers
  import opened Doubles
  import opened SeedbankNodes
  import opened SeedbankTrees
  import opened TreeSurgery
  import opened SurgeryProperties

  /** Math.max on two doubles. */
  function Max(a: real, b: real): (r: real)
    ensures r >= a && r >= b && (r == a || r == b)
  {
    if a >= b then a else b
  }

  /** Math.abs on a double. */
  function Abs(x: real): (r: real)
    ensures r >= 0.0 && (r == x || r == -x)
  {
    if x >= 0.0 then x else -x
  }

  /** Every draw of Randomizer.nextInt(n) lies in [0, n). */
  predicate Draws(draws: seq<int>, n: int)
  {
    forall i :: 0 <= i < |draws| ==> 0 <= draws[i] < n
  }

  /* ---------------------------------------------------------------------
   * Node selection.
   */

  /** The src condition: a node that is not the root. */
  predicate SrcOk(v: seq<NodeRec>, i: int)
    requires 0 <= i < |v|
  {
    v[i].parent != -1
  }

  /** The dest condition: not src, with a parent strictly above src. */
  predicate DestOk(v: seq<NodeRec>, src: int, i: int)
    requires Shaped(v) && 0 <= src < |v| && 0 <= i < |v|
  {
    v[i].parent != -1 && v[v[i].parent].height > v[src].height && i != src
  }

  /**
   * The src do-while loop on a sequence of draws: the first draw that is not
   * the root, or DrawsExhausted when every draw is the root.
   */
  function PickSrc(v: seq<NodeRec>, draws: seq<int>): (r: Result<int>)
    requires Draws(draws, |v|)
    ensures r.Ok? ==> 0 <= r.value < |v| && SrcOk(v, r.value)
    ensures r.Fail? ==> r.error == DrawsExhausted
  {
    if |draws| == 0 then Fail(DrawsExhausted)
    else if SrcOk(v, draws[0]) then Ok(draws[0])
    else PickSrc(v, draws[1..])
  }

  /** The src loop takes the first draw that is not the root, and runs out only when every draw is the root. */
  lemma {:induction false} PickSrcFirst(v: seq<NodeRec>, draws: seq<int>)
    requires Draws(draws, |v|)
    ensures var r := PickSrc(v, draws);
      (r.Ok? ==> exists k :: 0 <= k < |draws| && draws[k] == r.value && forall j :: 0 <= j < k ==> !SrcOk(v, draws[j])) &&
      (r.Fail? <==> forall j :: 0 <= j < |draws| ==> !SrcOk(v, draws[j]))
  {
    if |draws| > 0 && !SrcOk(v, draws[0]) {
      PickSrcFirst(v, draws[1..]);
      var r := PickSrc(v, draws[1..]);
      if r.Ok? {
        var k :| 0 <= k < |draws[1..]| && draws[1..][k] == r.value && forall j :: 0 <= j < k ==> !SrcOk(v, draws[1..][j]);
        assert draws[k + 1] == r.value && forall j :: 0 <= j < k + 1 ==> !SrcOk(v, draws[j]);
      } else {
        assert forall j :: 1 <= j < |draws| ==> draws[j] == draws[1..][j - 1];
      }
    }
  }

  /** The dest do-while loop on a sequence of draws: the first draw meeting the dest condition. */
  function PickDest(v: seq<NodeRec>, src: int, draws: seq<int>): (r: Result<int>)
    requires Shaped(v) && 0 <= src < |v| && Draws(draws, |v|)
    ensures r.Ok? ==> 0 <= r.value < |v| && DestOk(v, src, r.value)
    ensures r.Fail? ==> r.error == DrawsExhausted
  {
    if |draws| == 0 then Fail(DrawsExhausted)
    else if DestOk(v, src, draws[0]) then Ok(draws[0])
    else PickDest(v, src, draws[1..])
  }

  /** The dest loop takes the first draw meeting the dest condition, and runs out only when none does. */
  lemma {:induction false} PickDestFirst(v: seq<NodeRec>, src: int, draws: seq<int>)
    requires Shaped(v) && 0 <= src < |v| && Draws(draws, |v|)
    ensures var r := PickDest(v, src, draws);
      (r.Ok? ==> exists k :: 0 <= k < |draws| && draws[k] == r.value && forall j :: 0 <= j < k ==> !DestOk(v, src, draws[j])) &&
      (r.Fail? <==> forall j :: 0 <= j < |draws| ==> !DestOk(v, src, draws[j]))
  {
    if |draws| > 0 && !DestOk(v, src, draws[0]) {
      PickDestFirst(v, src, draws[1..]);
      var r := PickDest(v, src, draws[1..]);
      if r.Ok? {
        var k :| 0 <= k < |draws[1..]| && draws[1..][k] == r.value && forall j :: 0 <= j < k ==> !DestOk(v, src, draws[1..][j]);
        assert draws[k + 1] == r.value && forall j :: 0 <= j < k + 1 ==> !DestOk(v, src, draws[j]);
      } else {
        assert forall j :: 1 <= j < |draws| ==> draws[j] == draws[1..][j - 1];
      }
    }
  }

  /** The src do-while loop. */
  method SelectSrc(t: SeedbankTree, draws: seq<int>) returns (r: Result<int>)
    requires t.Wf() && Draws(draws, |t.nodes|)
    ensures r == PickSrc(t.View(), draws)
  {
    ghost var v := t.View();
    var i := 0;
    while i < |draws|
      invariant 0 <= i <= |draws|
      invariant PickSrc(v, draws[i..]) == PickSrc(v, draws)
    {
      assert draws[i..][1..] == draws[i + 1..];
      var n := t.nodes[draws[i]];
      assert n.Record() == v[draws[i]];
      if n.parent != -1 {
        return Ok(draws[i]);
      }
      i := i + 1;
    }
    return Fail(DrawsExhausted);
  }

  /** The dest do-while loop. */
  method SelectDest(t: SeedbankTree, src: int, draws: seq<int>) returns (r: Result<int>)
    requires t.Wf() && 0 <= src < |t.nodes| && Draws(draws, |t.nodes|)
    ensures r == PickDest(t.View(), src, draws)
  {
    ghost var v := t.View();
    var srcHeight := t.nodes[src].height;
    assert t.nodes[src].Record() == v[src];
    var i := 0;
    while i < |draws|
      invariant 0 <= i <= |draws|
      invariant PickDest(v, src, draws[i..]) == PickDest(v, src, draws)
    {
      assert draws[i..][1..] == draws[i + 1..];
      var ok := IsDest(t, src, srcHeight, draws[i]);
      if ok {
        return Ok(draws[i]);
      }
      i := i + 1;
    }
    return Fail(DrawsExhausted);
  }

  /** One test of the dest loop's condition. */
  method IsDest(t: SeedbankTree, src: int, srcHeight: real, d: int) returns (ok: bool)
    requires t.Wf() && 0 <= src < |t.nodes| && 0 <= d < |t.nodes| && srcHeight == t.View()[src].height
    ensures ok == DestOk(t.View(), src, d)
  {
    ghost var v := t.View();
    var n := t.nodes[d];
    assert n.Record() == v[d];
    if n.parent == -1 {
      return false;
    }
    var np := t.nodes[n.parent];
    assert np.Record() == v[n.parent];
    return np.height > srcHeight && d != src;
  }

  /* ---------------------------------------------------------------------
   * Active ranges and the age mapping.
   */

  /**
   * The active length of the branch from `last` up to `top` above `minAge`:
   * each stretch ending in a change to type 0 at or above minAge, clipped
   * below at minAge, and the top stretch from the last change (clipped the
   * same way) up to `top`.
   */
  function ActiveRange(last: real, times: seq<real>, types: seq<int>, minAge: real, top: real): real
    requires |times| == |types|
    decreases |times|
  {
    if |times| == 0 then top - Max(last, minAge)
    else
      (if times[0] >= minAge && types[0] == 0 then times[0] - Max(last, minAge) else 0.0) +
      ActiveRange(times[0], times[1..], types[1..], minAge, top)
  }

  /** The active range of the branch above n, with top the height of n's parent. */
  function BranchRange(n: NodeRec, minAge: real, top: real): real
    requires n.Consistent()
  {
    ActiveRange(n.height, n.changeTimes, n.changeTypes, minAge, top)
  }

  /** The drawn length: Randomizer.nextDouble() (u) times the range. */
  function Drawn(u: real, range: real): real
  {
    u * range
  }

  /** Where the age mapping lands: rejected on a stretch boundary, or at an age. */
  datatype Mapped = Rejected | Age(value: real)

  /**
   * The loop that walks the active stretches from the bottom, taking each
   * whole stretch off the drawn length x until x falls inside one; x equal
   * to a stretch's length or to 0 on an active stretch is rejected, and what
   * is left after the last change is placed on the top stretch.
   */
  function MapAge(last: real, times: seq<real>, types: seq<int>, minAge: real, x: real): Mapped
    requires |times| == |types|
    decreases |times|
  {
    if |times| == 0 then Age(Max(last, minAge) + x)
    else if times[0] >= minAge && types[0] == 0 then
      var seg := times[0] - Max(last, minAge);
      if x == seg || x == 0.0 then Rejected
      else if x > seg then MapAge(times[0], times[1..], types[1..], minAge, x - seg)
      else Age(Max(last, minAge) + x)
    else MapAge(times[0], times[1..], types[1..], minAge, x)
  }

  /** a lies strictly inside an active stretch above minAge, or on the top stretch below `top`. */
  predicate OnActive(last: real, times: seq<real>, types: seq<int>, minAge: real, top: real, a: real)
    requires |times| == |types|
    decreases |times|
  {
    if |times| == 0 then Max(last, minAge) <= a < top
    else
      (times[0] >= minAge && types[0] == 0 && Max(last, minAge) < a < times[0]) ||
      OnActive(times[0], times[1..], types[1..], minAge, top, a)
  }

  /** The loop that sums a branch's active range. */
  method CollectRange(n: SeedbankNode, minAge: real, top: real) returns (range: real)
    requires n.Valid()
    ensures range == BranchRange(n.Record(), minAge, top)
  {
    range := 0.0;
    var last := n.height;
    var i := 0;
    while i < n.nTypeChanges
      invariant 0 <= i <= n.nTypeChanges
      invariant range + ActiveRange(last, n.changeTimes[i..], n.changeTypes[i..], minAge, top) ==
                BranchRange(n.Record(), minAge, top)
    {
      assert n.changeTimes[i..][1..] == n.changeTimes[i + 1..];
      assert n.changeTypes[i..][1..] == n.changeTypes[i + 1..];
      var cur := n.changeTimes[i];
      if cur >= minAge && n.changeTypes[i] == 0 {
        range := range + (cur - Max(last, minAge));
      }
      last := cur;
      i := i + 1;
    }
    range := range + (top - Max(last, minAge));
  }

  /** The loop that maps the drawn length x onto the branch above n. */
  method MapNewAge(n: SeedbankNode, minAge: real, x0: real) returns (m: Mapped)
    requires n.Valid()
    ensures m == MapAge(n.height, n.changeTimes, n.changeTypes, minAge, x0)
  {
    var last := n.height;
    var x := x0;
    var i := 0;
    while i < n.nTypeChanges
      invariant 0 <= i <= n.nTypeChanges
      invariant MapAge(last, n.changeTimes[i..], n.changeTypes[i..], minAge, x) ==
                MapAge(n.height, n.changeTimes, n.changeTypes, minAge, x0)
    {
      assert n.changeTimes[i..][1..] == n.changeTimes[i + 1..];
      assert n.changeTypes[i..][1..] == n.changeTypes[i + 1..];
      var cur := n.changeTimes[i];
      if cur >= minAge && n.changeTypes[i] == 0 {
        var seg := cur - Max(last, minAge);
        if x == seg || x == 0.0 {
          return Rejected;
        } else if x > seg {
          x := x - seg;
        } else {
          return Age(Max(last, minAge) + x);
        }
      }
      last := cur;
      i := i + 1;
    }
    return Age(Max(last, minAge) + x);
  }

  /** A non-negative length maps to an age no lower than minAge. */
  lemma {:induction false} MapAgeAbove(last: real, times: seq<real>, types: seq<int>, minAge: real, x: real)
    requires |times| == |types| && x >= 0.0
    ensures MapAge(last, times, types, minAge, x).Age? ==> MapAge(last, times, types, minAge, x).value >= minAge
    decreases |times|
  {
    if |times| > 0 {
      var seg := times[0] - Max(last, minAge);
      if times[0] >= minAge && types[0] == 0 {
        if x != seg && x != 0.0 && x > seg {
          MapAgeAbove(times[0], times[1..], types[1..], minAge, x - seg);
        }
      } else {
        MapAgeAbove(times[0], times[1..], types[1..], minAge, x);
      }
    }
  }

  /** A length within the active range maps into an active stretch of the branch. */
  lemma {:induction false} MapAgeOnActive(last: real, times: seq<real>, types: seq<int>, minAge: real, top: real, x: real)
    requires |times| == |types| && 0.0 <= x < ActiveRange(last, times, types, minAge, top)
    ensures MapAge(last, times, types, minAge, x).Age? ==>
      OnActive(last, times, types, minAge, top, MapAge(last, times, types, minAge, x).value)
    decreases |times|
  {
    if |times| > 0 {
      var seg := times[0] - Max(last, minAge);
      if times[0] >= minAge && types[0] == 0 {
        if x != seg && x != 0.0 && x > seg {
          MapAgeOnActive(times[0], times[1..], types[1..], minAge, top, x - seg);
        }
      } else {
        MapAgeOnActive(times[0], times[1..], types[1..], minAge, top, x);
      }
    }
  }

  /** On a branch whose times ascend up to top, an active point lies between the clipped bottom and top. */
  lemma {:induction false} OnActiveWithin(last: real, times: seq<real>, types: seq<int>, minAge: real, top: real, a: real)
    requires |times| == |types| && Ascending([last] + times + [top])
    requires OnActive(last, times, types, minAge, top, a)
    ensures Max(last, minAge) <= a < top
    decreases |times|
  {
    if |times| > 0 {
      var s := [last] + times + [top];
      assert s[0] <= s[1] && s[1] == times[0];
      if !(times[0] >= minAge && types[0] == 0 && Max(last, minAge) < a < times[0]) {
        assert [times[0]] + times[1..] + [top] == s[1..];
        OnActiveWithin(times[0], times[1..], types[1..], minAge, top, a);
      }
      AscendingIsSorted(s, 1, |s| - 1);
    }
  }

  /** On a branch whose times ascend up to top, with minAge no higher than top, the active range is not negative. */
  lemma {:induction false} ActiveRangeNonNegative(last: real, times: seq<real>, types: seq<int>, minAge: real, top: real)
    requires |times| == |types| && Ascending([last] + times + [top]) && minAge <= top
    ensures ActiveRange(last, times, types, minAge, top) >= 0.0
    decreases |times|
  {
    if |times| > 0 {
      var s := [last] + times + [top];
      assert s[0] <= s[1] && s[1] == times[0];
      assert [times[0]] + times[1..] + [top] == s[1..];
      ActiveRangeNonNegative(times[0], times[1..], types[1..], minAge, top);
    } else {
      assert ([last] + times + [top])[0] <= ([last] + times + [top])[1];
    }
  }

  /* ---------------------------------------------------------------------
   * The proposal.
   */

  /** What the read-only part of a proposal decides: stop with a result, or move to an age and return logHR. */
  datatype Plan = Stop(result: Result<Double>) | Go(age: real, logHR: Double)

  /** The selections proposal() turns down with -infinity: src's parent is the root, or dest is next to it. */
  predicate Refused(v: seq<NodeRec>, src: int, dest: int)
    requires Shaped(v) && 0 <= src < |v| && 0 <= dest < |v| && v[src].parent != -1
  {
    var p := v[src].parent;
    var dp := v[dest].parent;
    v[p].parent == -1 || dp == p || dest == p || dp == src
  }

  /**
   * proposal() after the selections, up to the move: -infinity on a refused
   * selection; a missing sister raises NullPointerException; otherwise the
   * ranges decide.
   */
  function Planned(v: seq<NodeRec>, src: int, dest: int, u: real, ln: real -> real): (r: Plan)
    requires Shaped(v) && 0 <= src < |v| && 0 <= dest < |v| && v[src].parent != -1 && v[dest].parent != -1
    ensures r.Stop? ==> r.result == Ok(NegInf) || r.result == Fail(NullPointer)
  {
    if Refused(v, src, dest) then Stop(Ok(NegInf))
    else
      var sib := OtherChild(v[v[src].parent].children, src);
      if sib.Fail? || sib.value == -1 then Stop(Fail(NullPointer))
      else Ranged(v, src, dest, sib.value, u, ln)
  }

  /**
   * With the sister s found: -infinity when either range is 0 or the drawn
   * length u * newRange lands on a stretch boundary; otherwise the move to
   * the mapped age, returning log(newRange / |oldRange|).
   */
  function Ranged(v: seq<NodeRec>, src: int, dest: int, s: int, u: real, ln: real -> real): (r: Plan)
    requires Shaped(v) && 0 <= src < |v| && 0 <= dest < |v| && 0 <= s < |v| && v[src].parent != -1 && v[dest].parent != -1
    ensures r.Stop? ==> r.result == Ok(NegInf)
  {
    var newMinAge := Max(v[src].height, v[dest].height);
    var newRange := BranchRange(v[dest], newMinAge, v[v[dest].parent].height);
    var oldRange := BranchRange(v[s], Max(v[src].height, v[s].height), v[v[src].parent].height);
    if oldRange == 0.0 || newRange == 0.0 then Stop(Ok(NegInf))
    else
      match MapAge(v[dest].height, v[dest].changeTimes, v[dest].changeTypes, newMinAge, Drawn(u, newRange))
      case Rejected => Stop(Ok(NegInf))
      case Age(a) => Go(a, LogOf(ln, newRange / Abs(oldRange)))
  }

  /** What a proposal leaves: its result (the log Hastings ratio), the arena and the parameters. */
  datatype Proposed = Proposed(result: Result<Double>, view: seq<NodeRec>, params: Option<Indicators>)

  /** disconnectBranch(src) then connectBranch(src, dest, age); an exception from either ends the proposal. */
  function Moved(v: seq<NodeRec>, ind: Option<Indicators>, src: int, dest: int, age: real, logHR: Double): (r: Proposed)
    requires Shaped(v) && 0 <= src < |v| && 0 <= dest < |v|
    requires ind.Some? ==> Fits(ind.value, v)
    ensures Shaped(r.view) && |r.view| == |v|
    ensures (r.params.Some? <==> ind.Some?) && (r.params.Some? ==> Fits(r.params.value, r.view))
  {
    var d := Disconnected(v, src, ind);
    if d.outcome.Failed? then Proposed(Fail(d.outcome.error), d.view, d.params)
    else
      var c := Connected(d.view, src, dest, age, d.params);
      if c.outcome.Failed? then Proposed(Fail(c.outcome.error), c.view, c.params)
      else Proposed(Ok(logHR), c.view, c.params)
  }

  /** proposal(): IllegalStateException below three leaves, the two selections, then the plan. */
  function Proposal(v: seq<NodeRec>, leafCount: int, ind: Option<Indicators>,
                    srcDraws: seq<int>, destDraws: seq<int>, u: real, ln: real -> real): Proposed
    requires Shaped(v) && (ind.Some? ==> Fits(ind.value, v))
    requires Draws(srcDraws, |v|) && Draws(destDraws, |v|)
  {
    if leafCount < 3 then Proposed(Fail(IllegalState), v, ind)
    else
      var src := PickSrc(v, srcDraws);
      if src.Fail? then Proposed(Fail(src.error), v, ind)
      else
        var dest := PickDest(v, src.value, destDraws);
        if dest.Fail? then Proposed(Fail(dest.error), v, ind)
        else Carried(v, ind, src.value, dest.value, u, ln)
  }

  /** The plan carried out: a stop changes nothing, a go is the move. */
  function Carried(v: seq<NodeRec>, ind: Option<Indicators>, src: int, dest: int, u: real, ln: real -> real): (r: Proposed)
    requires Shaped(v) && 0 <= src < |v| && 0 <= dest < |v| && v[src].parent != -1 && v[dest].parent != -1
    requires ind.Some? ==> Fits(ind.value, v)
    ensures Shaped(r.view) && |r.view| == |v|
  {
    match Planned(v, src, dest, u, ln)
    case Stop(r) => Proposed(r, v, ind)
    case Go(a, logHR) => Moved(v, ind, src, dest, a, logHR)
  }

  /**
   * SeedbankTreeWilsonBalding.proposal on the tree and the optional lambdas
   * and etas: the src and dest draws stand for Randomizer.nextInt and u for
   * Randomizer.nextDouble.
   */
  method Propose(t: SeedbankTree, lambdas: array?<Double>, etas: array?<int>,
                 srcDraws: seq<int>, destDraws: seq<int>, u: real, ln: real -> real) returns (r: Result<Double>)
    requires t.Wf() && NoSelfChild(t.View())
    requires lambdas != null ==> lambdas.Length == |t.nodes|
    requires etas != null ==> etas.Length == |t.nodes|
    requires Draws(srcDraws, |t.nodes|) && Draws(destDraws, |t.nodes|)
    modifies t.nodes, lambdas, etas
    ensures t.Wf()
    ensures var spec := Proposal(old(t.View()), old(t.leafNodeCount), old(ParamsOf(lambdas, etas)), srcDraws, destDraws, u, ln);
      r == spec.result && t.View() == spec.view && ParamsOf(lambdas, etas) == spec.params
  {
    if t.leafNodeCount < 3 {
      return Fail(IllegalState);
    }
    var picked := SelectSrc(t, srcDraws);
    if picked.Fail? {
      return Fail(picked.error);
    }
    var src := picked.value;
    picked := SelectDest(t, src, destDraws);
    if picked.Fail? {
      return Fail(picked.error);
    }
    r := Carry(t, lambdas, etas, src, picked.value, u, ln);
  }

  /** proposal() after the selections: the read-only part, then the move when it goes ahead. */
  method Carry(t: SeedbankTree, lambdas: array?<Double>, etas: array?<int>, src: int, dest: int, u: real, ln: real -> real)
    returns (r: Result<Double>)
    requires t.Wf() && NoSelfChild(t.View()) && 0 <= src < |t.nodes| && 0 <= dest < |t.nodes|
    requires t.View()[src].parent != -1 && t.View()[dest].parent != -1
    requires lambdas != null ==> lambdas.Length == |t.nodes|
    requires etas != null ==> etas.Length == |t.nodes|
    modifies t.nodes, lambdas, etas
    ensures t.Wf()
    ensures var spec := Carried(old(t.View()), old(ParamsOf(lambdas, etas)), src, dest, u, ln);
      r == spec.result && t.View() == spec.view && ParamsOf(lambdas, etas) == spec.params
  {
    var plan := Choose(t, src, dest, u, ln);
    if plan.Stop? {
      return plan.result;
    }
    r := Move(t, lambdas, etas, src, dest, plan.age, plan.logHR);
  }

  /** disconnectBranch(src) then connectBranch(src, dest, age), returning logHR when neither throws. */
  method Move(t: SeedbankTree, lambdas: array?<Double>, etas: array?<int>, src: int, dest: int, age: real, logHR: Double)
    returns (r: Result<Double>)
    requires t.Wf() && NoSelfChild(t.View()) && 0 <= src < |t.nodes| && 0 <= dest < |t.nodes|
    requires lambdas != null ==> lambdas.Length == |t.nodes|
    requires etas != null ==> etas.Length == |t.nodes|
    modifies t.nodes, lambdas, etas
    ensures t.Wf()
    ensures var spec := Moved(old(t.View()), old(ParamsOf(lambdas, etas)), src, dest, age, logHR);
      r == spec.result && t.View() == spec.view && ParamsOf(lambdas, etas) == spec.params
  {
    ghost var v := t.View();
    ghost var ind := ParamsOf(lambdas, etas);
    ghost var d := Disconnected(v, src, ind);
    var out := DisconnectBranch(t, lambdas, etas, src);
    assert t.View() == d.view && ParamsOf(lambdas, etas) == d.params;
    if out.Failed? {
      return Fail(out.error);
    }
    ghost var c := Connected(d.view, src, dest, age, d.params);
    out := ConnectBranch(t, lambdas, etas, src, dest, age);
    assert t.View() == c.view && ParamsOf(lambdas, etas) == c.params;
    if out.Failed? {
      return Fail(out.error);
    }
    return Ok(logHR);
  }

  /** The read-only part of proposal() after the selections. */
  method Choose(t: SeedbankTree, src: int, dest: int, u: real, ln: real -> real) returns (plan: Plan)
    requires t.Wf() && 0 <= src < |t.nodes| && 0 <= dest < |t.nodes|
    requires t.View()[src].parent != -1 && t.View()[dest].parent != -1
    ensures plan == Planned(t.View(), src, dest, u, ln)
  {
    ghost var v := t.View();
    var srcNode := t.nodes[src];
    var destNode := t.nodes[dest];
    assert srcNode.Record() == v[src] && destNode.Record() == v[dest];
    var srcP := t.nodes[srcNode.parent];
    assert srcP.Record() == v[srcNode.parent];
    if srcP.parent == -1 || destNode.parent == srcNode.parent || dest == srcNode.parent || destNode.parent == src {
      return Stop(Ok(NegInf));
    }
    var sib := OtherChild(srcP.children, src);
    if sib.Fail? || sib.value == -1 {
      return Stop(Fail(NullPointer));
    }
    plan := RangeAndMap(t, src, dest, sib.value, u, ln);
  }

  /** The two range loops, the zero-range test and the age-mapping loop. */
  method RangeAndMap(t: SeedbankTree, src: int, dest: int, s: int, u: real, ln: real -> real) returns (plan: Plan)
    requires t.Wf() && 0 <= src < |t.nodes| && 0 <= dest < |t.nodes| && 0 <= s < |t.nodes|
    requires t.View()[src].parent != -1 && t.View()[dest].parent != -1
    ensures plan == Ranged(t.View(), src, dest, s, u, ln)
  {
    ghost var v := t.View();
    var srcNode := t.nodes[src];
    var destNode := t.nodes[dest];
    var sibling := t.nodes[s];
    assert srcNode.Record() == v[src] && destNode.Record() == v[dest] && sibling.Record() == v[s];
    var srcP := t.nodes[srcNode.parent];
    var destP := t.nodes[destNode.parent];
    assert srcP.Record() == v[srcNode.parent] && destP.Record() == v[destNode.parent];
    var newMinAge := Max(srcNode.height, destNode.height);
    var newRange := CollectRange(destNode, newMinAge, destP.height);
    var oldRange := CollectRange(sibling, Max(srcNode.height, sibling.height), srcP.height);
    var mapped := MapNewAge(destNode, newMinAge, Drawn(u, newRange));
    RangedIs(v, src, dest, s, u, ln, newRange, oldRange, mapped);
    if oldRange == 0.0 || newRange == 0.0 {
      return Stop(Ok(NegInf));
    }
    var hastingsRatio := newRange / Abs(oldRange);
    if mapped.Rejected? {
      return Stop(Ok(NegInf));
    }
    return Go(mapped.value, LogOf(ln, hastingsRatio));
  }

  /** Ranged, for the ranges and the mapping computed from v. */
  lemma RangedIs(v: seq<NodeRec>, src: int, dest: int, s: int, u: real, ln: real -> real,
                 newRange: real, oldRange: real, mapped: Mapped)
    requires Shaped(v) && 0 <= src < |v| && 0 <= dest < |v| && 0 <= s < |v| && v[src].parent != -1 && v[dest].parent != -1
    requires var newMinAge := Max(v[src].height, v[dest].height);
      newRange == BranchRange(v[dest], newMinAge, v[v[dest].parent].height) &&
      oldRange == BranchRange(v[s], Max(v[src].height, v[s].height), v[v[src].parent].height) &&
      mapped == MapAge(v[dest].height, v[dest].changeTimes, v[dest].changeTypes, newMinAge, Drawn(u, newRange))
    ensures Ranged(v, src, dest, s, u, ln) ==
      if oldRange == 0.0 || newRange == 0.0 || mapped.Rejected? then Stop(Ok(NegInf))
      else Go(mapped.value, LogOf(ln, newRange / Abs(oldRange)))
  {
  }

  /* ---------------------------------------------------------------------
   * What a proposal does.
   */

  /** A draw u in [0, 1) times a positive range lies in [0, range). */
  lemma DrawnWithin(u: real, range: real)
    requires 0.0 <= u < 1.0 && range > 0.0
    ensures 0.0 <= Drawn(u, range) < range
  {
    assert (1.0 - u) * range > 0.0;
  }

  /** Below three leaves the proposal throws IllegalStateException and changes nothing. */
  lemma ProposalTooSmall(v: seq<NodeRec>, leafCount: int, ind: Option<Indicators>,
                         srcDraws: seq<int>, destDraws: seq<int>, u: real, ln: real -> real)
    requires Shaped(v) && (ind.Some? ==> Fits(ind.value, v))
    requires Draws(srcDraws, |v|) && Draws(destDraws, |v|)
    requires leafCount < 3
    ensures Proposal(v, leafCount, ind, srcDraws, destDraws, u, ln) == Proposed(Fail(IllegalState), v, ind)
  {
  }

  /** A plan that goes ahead never returns -infinity: its ratio has a non-zero numerator. */
  lemma GoIsNotRejection(v: seq<NodeRec>, src: int, dest: int, u: real, ln: real -> real)
    requires Shaped(v) && 0 <= src < |v| && 0 <= dest < |v| && v[src].parent != -1 && v[dest].parent != -1
    ensures Planned(v, src, dest, u, ln).Go? ==> Planned(v, src, dest, u, ln).logHR != NegInf
  {
    if !Refused(v, src, dest) {
      var sib := OtherChild(v[v[src].parent].children, src);
      if sib.Ok? && sib.value != -1 {
        var s := sib.value;
        var newMinAge := Max(v[src].height, v[dest].height);
        var newRange := BranchRange(v[dest], newMinAge, v[v[dest].parent].height);
        var oldRange := BranchRange(v[s], Max(v[src].height, v[s].height), v[v[src].parent].height);
        if newRange != 0.0 && oldRange != 0.0 {
          assert newRange / Abs(oldRange) != 0.0;
        }
      }
    }
  }

  /**
   * A proposal that returns -infinity leaves the tree and the parameters as
   * they were: every rejection comes before the surgery.
   */
  lemma RejectionChangesNothing(v: seq<NodeRec>, leafCount: int, ind: Option<Indicators>,
                                srcDraws: seq<int>, destDraws: seq<int>, u: real, ln: real -> real)
    requires Shaped(v) && (ind.Some? ==> Fits(ind.value, v))
    requires Draws(srcDraws, |v|) && Draws(destDraws, |v|)
    ensures var r := Proposal(v, leafCount, ind, srcDraws, destDraws, u, ln);
      r.result == Ok(NegInf) ==> r.view == v && r.params == ind
  {
    if leafCount >= 3 && PickSrc(v, srcDraws).Ok? {
      var src := PickSrc(v, srcDraws).value;
      if PickDest(v, src, destDraws).Ok? {
        GoIsNotRejection(v, src, PickDest(v, src, destDraws).value, u, ln);
      }
    }
  }

  /**
   * In an ordered binary time tree a plan that goes ahead has passed every
   * selection test, both ranges are positive and the ratio is
   * log(newRange / oldRange), and the age lies on an active stretch of
   * dest's branch, no lower than src or dest and below dest's parent.
   */
  lemma PlannedGo(v: seq<NodeRec>, src: int, dest: int, u: real, ln: real -> real)
    requires Shaped(v) && TimeTree(v) && AllBranchesOrdered(v)
    requires 0 <= src < |v| && 0 <= dest < |v| && SrcOk(v, src) && DestOk(v, src, dest) && 0.0 <= u < 1.0
    ensures var plan := Planned(v, src, dest, u, ln);
      plan.Go? ==>
        !Refused(v, src, dest) && Grandparented(v, src) &&
        var s := Sister(v, src);
        var m := Max(v[src].height, v[dest].height); var top := v[v[dest].parent].height;
        var newRange := BranchRange(v[dest], m, top);
        var oldRange := BranchRange(v[s], Max(v[src].height, v[s].height), v[v[src].parent].height);
        newRange > 0.0 && oldRange > 0.0 && plan.logHR == LogOf(ln, newRange / oldRange) &&
        m <= plan.age < top &&
        OnActive(v[dest].height, v[dest].changeTimes, v[dest].changeTypes, m, top, plan.age)
  {
    var plan := Planned(v, src, dest, u, ln);
    if plan.Go? {
      var p := v[src].parent;
      TimeTreeGrandparented(v, src);
      var s := Sister(v, src);
      assert v[s].parent == p;
      var d := v[dest];
      var m := Max(v[src].height, d.height);
      var top := v[d.parent].height;
      var newRange := BranchRange(d, m, top);
      var oldRange := BranchRange(v[s], Max(v[src].height, v[s].height), v[p].height);
      ActiveRangeNonNegative(d.height, d.changeTimes, d.changeTypes, m, top);
      ActiveRangeNonNegative(v[s].height, v[s].changeTimes, v[s].changeTypes, Max(v[src].height, v[s].height), v[p].height);
      assert plan == Ranged(v, src, dest, s, u, ln);
      var x := Drawn(u, newRange);
      DrawnWithin(u, newRange);
      MapAgeAbove(d.height, d.changeTimes, d.changeTypes, m, x);
      MapAgeOnActive(d.height, d.changeTimes, d.changeTypes, m, top, x);
      OnActiveWithin(d.height, d.changeTimes, d.changeTypes, m, top, plan.age);
    }
  }

  /**
   * What the move needs of src and dest: src's parent is binary with a
   * further parent, the sister points back at it, and dest hangs from a
   * node other than src, src's parent and dest itself.
   */
  predicate Movable(v: seq<NodeRec>, src: int, dest: int)
    requires Shaped(v) && 0 <= src < |v| && 0 <= dest < |v|
  {
    NoSelfChild(v) && Grandparented(v, src) && v[Sister(v, src)].parent == v[src].parent &&
    var p := v[src].parent; var dp := v[dest].parent;
    dp != -1 && dest != src && dest != p && dp != p && dp != src && dp != dest
  }

  /** In a time tree the selection tests that pass leave src and dest movable. */
  lemma TimeTreeMovable(v: seq<NodeRec>, src: int, dest: int)
    requires Shaped(v) && TimeTree(v) && 0 <= src < |v| && 0 <= dest < |v| && Grandparented(v, src)
    requires var p := v[src].parent; var dp := v[dest].parent;
      dp != -1 && dest != src && dest != p && dp != p && dp != src
    ensures Movable(v, src, dest)
  {
    TimeTreeNoSelfChild(v);
    var s := Sister(v, src);
    assert v[s].parent == v[src].parent;
    assert v[v[dest].parent].height > v[dest].height;
  }

  /**
   * The move on a binary time tree, when it completes: src's parent p now
   * sits at the age, with src and dest as its children and dest's old
   * parent above it; the sister hangs from the old grandparent; and the
   * result is the given ratio.
   */
  lemma MovedLinks(v: seq<NodeRec>, ind: Option<Indicators>, src: int, dest: int, age: real, logHR: Double)
    requires Shaped(v) && 0 <= src < |v| && 0 <= dest < |v| && Movable(v, src, dest)
    requires ind.Some? ==> Fits(ind.value, v)
    ensures var r := Moved(v, ind, src, dest, age, logHR); var w := r.view;
      var p := v[src].parent; var dp := v[dest].parent; var s := Sister(v, src);
      r.result.Ok? ==>
        r.result.value == logHR && w[p].height == age &&
        w[src].parent == p && w[dest].parent == p && w[p].parent == dp && w[s].parent == v[p].parent &&
        src in w[p].children && dest in w[p].children && p in w[dp].children
  {
    var p := v[src].parent;
    var s := Sister(v, src);
    DisconnectedRecords(v, src, dest, ind);
    var d := Disconnected(v, src, ind);
    var w := d.view;
    assert Attachable(w, src, dest);
    ConnectedAfterDisconnect(w, d.params, src, dest, s, age);
    var c := Connected(w, src, dest, age, d.params);
    assert Moved(v, ind, src, dest, age, logHR) ==
      if c.outcome.Failed? then Proposed(Fail(c.outcome.error), c.view, c.params) else Proposed(Ok(logHR), c.view, c.params);
  }

  /**
   * The changes after a completed move: the sister carries p's old changes
   * after its own, and dest's old changes are split between dest (up to the
   * age) and p (above it).
   */
  lemma MovedChanges(v: seq<NodeRec>, ind: Option<Indicators>, src: int, dest: int, age: real, logHR: Double)
    requires Shaped(v) && 0 <= src < |v| && 0 <= dest < |v| && Movable(v, src, dest)
    requires ind.Some? ==> Fits(ind.value, v)
    ensures var r := Moved(v, ind, src, dest, age, logHR); var w := r.view;
      var p := v[src].parent; var s := Sister(v, src);
      r.result.Ok? ==>
        w[s].changeTypes == v[s].changeTypes + v[p].changeTypes && w[s].changeTimes == v[s].changeTimes + v[p].changeTimes &&
        w[dest].changeTypes + w[p].changeTypes == v[dest].changeTypes &&
        w[dest].changeTimes + w[p].changeTimes == v[dest].changeTimes
  {
    var p := v[src].parent;
    var s := Sister(v, src);
    DisconnectedRecords(v, src, dest, ind);
    var d := Disconnected(v, src, ind);
    var w := d.view;
    assert Attachable(w, src, dest);
    ConnectedAfterDisconnect(w, d.params, src, dest, s, age);
    var c := Connected(w, src, dest, age, d.params);
    assert Moved(v, ind, src, dest, age, logHR) ==
      if c.outcome.Failed? then Proposed(Fail(c.outcome.error), c.view, c.params) else Proposed(Ok(logHR), c.view, c.params);
  }

  /** connectBranch on an attachable arena, seen from the node's parent, dest and a bystander s. */
  lemma ConnectedAfterDisconnect(w: seq<NodeRec>, ind: Option<Indicators>, src: int, dest: int, s: int, age: real)
    requires Shaped(w) && 0 <= src < |w| && 0 <= dest < |w| && 0 <= s < |w| && Attachable(w, src, dest)
    requires ind.Some? ==> Fits(ind.value, w)
    requires s != dest && s != w[src].parent
    ensures var c := Connected(w, src, dest, age, ind); var x := c.view;
      var p := w[src].parent; var dp := w[dest].parent;
      c.outcome == Done ==>
        x[p].height == age &&
        x[src].parent == p && x[dest].parent == p && x[p].parent == dp && x[s].parent == w[s].parent &&
        src in x[p].children && dest in x[p].children && p in x[dp].children &&
        x[s].changeTypes == w[s].changeTypes && x[s].changeTimes == w[s].changeTimes &&
        x[dest].changeTypes + x[p].changeTypes == w[dest].changeTypes &&
        x[dest].changeTimes + x[p].changeTimes == w[dest].changeTimes
  {
    ConnectSplitsChanges(w, src, dest, age, ind);
    ConnectKeepsOthers(w, src, dest, age, ind);
  }

  /**
   * A carried-out plan on an ordered binary time tree that returns neither
   * an error nor -infinity is a Go: the move of its age, with the facts of
   * PlannedGo and MovedLinks.
   */
  lemma CarriedAccepted(v: seq<NodeRec>, ind: Option<Indicators>, src: int, dest: int, u: real, ln: real -> real)
    requires Shaped(v) && TimeTree(v) && AllBranchesOrdered(v) && (ind.Some? ==> Fits(ind.value, v))
    requires 0 <= src < |v| && 0 <= dest < |v| && SrcOk(v, src) && DestOk(v, src, dest) && 0.0 <= u < 1.0
    ensures var r := Carried(v, ind, src, dest, u, ln);
      r.result.Ok? && r.result.value != NegInf ==>
        Grandparented(v, src) &&
        var w := r.view; var p := v[src].parent; var dp := v[dest].parent; var s := Sister(v, src);
        var m := Max(v[src].height, v[dest].height);
        var newRange := BranchRange(v[dest], m, v[dp].height);
        var oldRange := BranchRange(v[s], Max(v[src].height, v[s].height), v[p].height);
        w[src].parent == p && w[dest].parent == p && w[p].parent == dp && w[s].parent == v[p].parent &&
        m <= w[p].height < v[dp].height &&
        OnActive(v[dest].height, v[dest].changeTimes, v[dest].changeTypes, m, v[dp].height, w[p].height) &&
        newRange > 0.0 && oldRange > 0.0 && r.result.value == LogOf(ln, newRange / oldRange)
  {
    var plan := Planned(v, src, dest, u, ln);
    PlannedGo(v, src, dest, u, ln);
    if plan.Go? {
      assert Carried(v, ind, src, dest, u, ln) == Moved(v, ind, src, dest, plan.age, plan.logHR);
      TimeTreeMovable(v, src, dest);
      MovedLinks(v, ind, src, dest, plan.age, plan.logHR);
    }
  }

  /**
   * An accepted Wilson-Balding move on an ordered binary time tree: src was
   * the first non-root draw and dest the first draw meeting the dest
   * condition; src's parent p moves onto dest's branch at an age on one of
   * its active stretches, no lower than src or dest and below dest's old
   * parent; the sister takes p's place under the old grandparent; and the
   * result is log(newRange / oldRange) of the two positive active ranges.
   */
  lemma AcceptedMove(v: seq<NodeRec>, leafCount: int, ind: Option<Indicators>,
                     srcDraws: seq<int>, destDraws: seq<int>, u: real, ln: real -> real)
    requires Shaped(v) && TimeTree(v) && AllBranchesOrdered(v) && (ind.Some? ==> Fits(ind.value, v))
    requires Draws(srcDraws, |v|) && Draws(destDraws, |v|) && 0.0 <= u < 1.0
    ensures var r := Proposal(v, leafCount, ind, srcDraws, destDraws, u, ln);
      r.result.Ok? && r.result.value != NegInf ==>
        leafCount >= 3 && PickSrc(v, srcDraws).Ok? && PickDest(v, PickSrc(v, srcDraws).value, destDraws).Ok? &&
        var src := PickSrc(v, srcDraws).value; var dest := PickDest(v, src, destDraws).value;
        r == Carried(v, ind, src, dest, u, ln)
  {
    var r := Proposal(v, leafCount, ind, srcDraws, destDraws, u, ln);
    if r.result.Ok? && r.result.value != NegInf {
      var src := PickSrc(v, srcDraws).value;
      var dest := PickDest(v, src, destDraws).value;
      assert r == Carried(v, ind, src, dest, u, ln);
    }
  }
}
