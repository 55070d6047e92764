// TypedWilsonBalding: the Wilson-Balding move on a typed seedbank tree. A
// src node is pruned together with its parent p, p is regrafted on the
// branch above dest at an age drawn uniformly over that branch's active
// stretches, and the branch above src is retyped. proposal() turns down
// with -infinity every selection in which dest or p is the root, before
// anything changes, so of its three cases only the non-root move is ever
// carried out.
//
// The Randomizer.nextInt draws of the two selection loops are `srcPicks`
// and `destPicks` (each taken modulo the node count), u is the
// Randomizer.nextDouble draw for the age, and `a` the draws of the retype.

module TypedWilsonBaldings {
  import opened Wrappers
  import opened Doubles
  import opened SeedbankNodes
  import opened SeedbankTrees
  import opened TreeSurgery
  import opened SurgeryProperties
  import opened Retype
  import opened RetypeMoves
  import opened NodeDraws
  import WB = WilsonBalding

  /* ---------------------------------------------------------------------
   * Selecting src and dest.
   */

  /** getOtherChild(parent, k) where the caller then reads the sister: a missing one throws. */
  function SisterOf(v: seq<NodeRec>, k: int): (r: Result<int>)
    requires Shaped(v) && 0 <= k < |v| && v[k].parent != -1
    ensures r.Ok? ==> 0 <= r.value < |v| && r.value in v[v[k].parent].children
    ensures r.Fail? ==> r.error == NullPointer
  {
    match OtherChild(v[v[k].parent].children, k)
    case Fail(e) => Fail(e)
    case Ok(s) => if s == -1 then Fail(NullPointer) else Ok(s)
  }

  /** Under a parent with two distinct children the sister is always there. */
  lemma SisterOfBinary(v: seq<NodeRec>, k: int)
    requires Shaped(v) && 0 <= k < |v| && BinaryParent(v, k)
    ensures SisterOf(v, k) == Ok(Sister(v, k))
  {
  }

  /**
   * invalidSrcNode: the root is invalid, and so is a child of the root
   * whose sister is a leaf or no higher than it; a missing sister of a
   * child of the root throws NullPointerException.
   */
  function InvalidSrc(v: seq<NodeRec>, k: int): (r: Result<bool>)
    requires Shaped(v) && 0 <= k < |v|
    ensures v[k].parent == -1 ==> r == Ok(true)
    ensures r.Fail? ==> r.error == NullPointer && v[v[k].parent].parent == -1
    ensures v[k].parent != -1 && v[v[k].parent].parent != -1 ==> r == Ok(false)
  {
    var p := v[k].parent;
    if p == -1 then Ok(true)
    else if v[p].parent != -1 then Ok(false)
    else
      match SisterOf(v, k)
      case Fail(e) => Fail(e)
      case Ok(s) => Ok(IsLeaf(v[s]) || v[k].height >= v[s].height)
  }

  /**
   * In a binary time tree the test never throws, and a node is a valid src
   * exactly when it is not the root and, when its parent is the root, its
   * sister has children and is higher than it.
   */
  lemma ValidSourceInTimeTree(v: seq<NodeRec>, k: int)
    requires Shaped(v) && TimeTree(v) && 0 <= k < |v|
    ensures InvalidSrc(v, k).Ok?
    ensures InvalidSrc(v, k) == Ok(false) <==>
      v[k].parent != -1 &&
      (v[v[k].parent].parent != -1 || (BinaryParent(v, k) && !IsLeaf(v[Sister(v, k)]) && v[k].height < v[Sister(v, k)].height))
  {
    var p := v[k].parent;
    if p != -1 {
      assert k in v[p].children;
      assert BinaryParent(v, k);
      SisterOfBinary(v, k);
    }
  }

  /**
   * The src do-while loop: the first draw the test accepts and that draw's
   * index; an exception from the test ends the loop.
   */
  function PickSource(v: seq<NodeRec>, picks: seq<nat>): (r: Result<(int, nat)>)
    requires Shaped(v) && |v| > 0
    ensures r.Ok? ==> r.value.1 < |picks| && r.value.0 == picks[r.value.1] % |v| && InvalidSrc(v, r.value.0) == Ok(false)
    ensures r.Ok? ==> forall j :: 0 <= j < r.value.1 ==> InvalidSrc(v, picks[j] % |v|) == Ok(true)
    ensures r == Fail(DrawsExhausted) <==> forall j :: 0 <= j < |picks| ==> InvalidSrc(v, picks[j] % |v|) == Ok(true)
    ensures r.Fail? ==> r.error == DrawsExhausted || r.error == NullPointer
    decreases |picks|
  {
    if |picks| == 0 then Fail(DrawsExhausted)
    else
      match InvalidSrc(v, picks[0] % |v|)
      case Fail(e) => Fail(e)
      case Ok(invalid) =>
        if !invalid then Ok((picks[0] % |v|, 0))
        else
          var rest := PickSource(v, picks[1..]);
          assert forall j :: 0 <= j < |picks| - 1 ==> picks[1..][j] == picks[j + 1];
          Later(rest, 1)
  }

  /** A draw found i draws further on. */
  function Later(r: Result<(int, nat)>, i: nat): (q: Result<(int, nat)>)
    ensures q.Fail? <==> r.Fail?
    ensures q.Fail? ==> q == r
    ensures q.Ok? ==> q.value == (r.value.0, r.value.1 + i)
  {
    if r.Fail? then r else Ok((r.value.0, r.value.1 + i))
  }

  /**
   * invalidDestNode: dest is src, src's parent or a child of src's parent,
   * or it has a parent no higher than src.
   */
  predicate InvalidDest(v: seq<NodeRec>, src: int, d: int)
    requires Shaped(v) && 0 <= src < |v| && 0 <= d < |v|
  {
    d == src || d == v[src].parent || v[d].parent == v[src].parent ||
    (v[d].parent != -1 && v[v[d].parent].height <= v[src].height)
  }

  /** The dest loop's acceptance test on a drawn node. */
  predicate DestAccepted(v: seq<NodeRec>, src: int, d: int)
    requires Shaped(v) && 0 <= src < |v|
  {
    0 <= d < |v| && !InvalidDest(v, src, d)
  }

  /**
   * In a binary time tree every valid src leaves a valid dest, so the dest
   * loop can end: p's parent when p is not the root, and otherwise a child
   * of the sister, which the src test made sure exists.
   */
  lemma ValidSourceHasDest(v: seq<NodeRec>, src: int)
    requires Shaped(v) && TimeTree(v) && 0 <= src < |v| && InvalidSrc(v, src) == Ok(false)
    ensures exists d :: DestAccepted(v, src, d)
  {
    ValidSourceInTimeTree(v, src);
    var p := v[src].parent;
    var gp := v[p].parent;
    if gp != -1 {
      assert v[p].height < v[gp].height;
      if v[gp].parent != -1 {
        assert v[gp].height < v[v[gp].parent].height;
      }
      assert DestAccepted(v, src, gp);
    } else {
      var s := Sister(v, src);
      var c := v[s].children[0];
      assert v[c].parent == s;
      assert DestAccepted(v, src, c);
    }
  }

  /** The selected nodes: src, its sister, and dest. */
  datatype Picked = Picked(src: int, sister: int, dest: int)

  /**
   * The selections of proposal(): the src loop, the sister of src (read
   * at once, so a missing one throws), then the dest loop. With no nodes,
   * nextInt throws IllegalArgumentException.
   */
  function Selected(v: seq<NodeRec>, srcPicks: seq<nat>, destPicks: seq<nat>): (r: Result<Picked>)
    requires Shaped(v)
    ensures r.Ok? ==>
      0 <= r.value.src < |v| && 0 <= r.value.sister < |v| && 0 <= r.value.dest < |v| &&
      InvalidSrc(v, r.value.src) == Ok(false) && v[r.value.src].parent != -1 &&
      SisterOf(v, r.value.src) == Ok(r.value.sister) && DestAccepted(v, r.value.src, r.value.dest)
  {
    if |v| == 0 then Fail(IllegalArgument)
    else
      match PickSource(v, srcPicks)
      case Fail(e) => Fail(e)
      case Ok((src, _)) =>
        match SisterOf(v, src)
        case Fail(e) => Fail(e)
        case Ok(s) =>
          match FirstAccepted(|v|, destPicks, k => DestAccepted(v, src, k))
          case Fail(e) => Fail(e)
          case Ok((dest, _)) => Ok(Picked(src, s, dest))
  }

  /* ---------------------------------------------------------------------
   * The ranges and the plan.
   */

  /**
   * The active length of a whole branch from `last` up to `top`: each
   * stretch that ends in a change to type 0, and the top stretch.
   */
  function WholeRange(last: real, times: seq<real>, types: seq<int>, top: real): real
    requires |times| == |types|
    decreases |times|
  {
    if |times| == 0 then top - last
    else (if types[0] == 0 then times[0] - last else 0.0) + WholeRange(times[0], times[1..], types[1..], top)
  }

  /**
   * On a branch whose times ascend up to top, the whole branch's active
   * length is its active range above any age m no higher than its bottom.
   */
  lemma {:induction false} WholeRangeIsActiveRange(last: real, times: seq<real>, types: seq<int>, m: real, top: real)
    requires |times| == |types| && Ascending([last] + times + [top]) && m <= last
    ensures WholeRange(last, times, types, top) == WB.ActiveRange(last, times, types, m, top)
    decreases |times|
  {
    var s := [last] + times + [top];
    assert s[0] <= s[1];
    if |times| > 0 {
      assert s[1] == times[0];
      assert [times[0]] + times[1..] + [top] == s[1..];
      WholeRangeIsActiveRange(times[0], times[1..], types[1..], m, top);
    }
  }

  /**
   * oldRange: the active range of the sister's branch above the higher of
   * src and the sister, plus the active length of p's whole branch up to
   * the grandparent.
   */
  function OldRange(v: seq<NodeRec>, src: int, s: int): real
    requires Shaped(v) && 0 <= src < |v| && 0 <= s < |v| && v[src].parent != -1 && v[v[src].parent].parent != -1
  {
    var p := v[v[src].parent];
    WB.BranchRange(v[s], WB.Max(v[src].height, v[s].height), p.height) +
    WholeRange(p.height, p.changeTimes, p.changeTypes, v[p.parent].height)
  }

  /** newRange: the active range of dest's branch above the higher of src and dest. */
  function NewRange(v: seq<NodeRec>, src: int, dest: int): real
    requires Shaped(v) && 0 <= src < |v| && 0 <= dest < |v| && v[dest].parent != -1
  {
    WB.BranchRange(v[dest], WB.Max(v[src].height, v[dest].height), v[v[dest].parent].height)
  }

  /**
   * What the read-only part of proposal() decides: stop with a result, or
   * move p to an age, with the probability of src's current path and the
   * log ratio of the two ranges.
   */
  datatype Plan = Stop(result: Result<Double>) | Go(age: real, before: Double, ratio: Double)

  /**
   * proposal() after the selections, up to the move: -infinity when dest or
   * p is the root, when either range is 0, or when the drawn length lands
   * on a stretch boundary; otherwise the age the length maps to.
   */
  function Planned(v: seq<NodeRec>, ch: Chain, ln: real -> real, expm: (real, int, int) -> real,
                   src: int, s: int, dest: int, u: real): (r: Plan)
    requires Shaped(v) && 0 <= src < |v| && 0 <= s < |v| && 0 <= dest < |v| && v[src].parent != -1
    ensures r.Stop? ==> r.result == Ok(NegInf)
    ensures r.Go? ==> v[dest].parent != -1 && v[v[src].parent].parent != -1 && Prob(v, ch, ln, expm, src) == Ok(r.before)
  {
    if v[dest].parent == -1 || v[v[src].parent].parent == -1 then Stop(Ok(NegInf))
    else
      var before := Prob(v, ch, ln, expm, src).value;
      var newRange := NewRange(v, src, dest);
      var oldRange := OldRange(v, src, s);
      if oldRange == 0.0 || newRange == 0.0 then Stop(Ok(NegInf))
      else
        var m := WB.Max(v[src].height, v[dest].height);
        match WB.MapAge(v[dest].height, v[dest].changeTimes, v[dest].changeTypes, m, WB.Drawn(u, newRange))
        case Rejected => Stop(Ok(NegInf))
        case Age(a) => Go(a, before, Sub(LogOf(ln, newRange), LogOf(ln, oldRange)))
  }

  /** A selection that would change the root is turned down with -infinity. */
  lemma RootMoveRefused(v: seq<NodeRec>, ch: Chain, ln: real -> real, expm: (real, int, int) -> real,
                        src: int, s: int, dest: int, u: real)
    requires Shaped(v) && 0 <= src < |v| && 0 <= s < |v| && 0 <= dest < |v| && v[src].parent != -1
    requires v[dest].parent == -1 || v[v[src].parent].parent == -1
    ensures Planned(v, ch, ln, expm, src, s, dest, u) == Stop(Ok(NegInf))
  {
  }

  /** On a branch whose times ascend up to top, its whole active length is not negative. */
  lemma WholeRangeNonNegative(last: real, times: seq<real>, types: seq<int>, top: real)
    requires |times| == |types| && Ascending([last] + times + [top])
    ensures WholeRange(last, times, types, top) >= 0.0
  {
    WholeRangeIsActiveRange(last, times, types, last, top);
    AscendingIsSorted([last] + times + [top], 0, |times| + 1);
    WB.ActiveRangeNonNegative(last, times, types, last, top);
  }

  /**
   * In an ordered binary time tree a plan that goes ahead has positive
   * ranges, its ratio is log newRange - log oldRange, and its age lies on
   * an active stretch of dest's branch, no lower than src or dest and
   * below dest's parent.
   */
  lemma PlannedGo(v: seq<NodeRec>, ch: Chain, ln: real -> real, expm: (real, int, int) -> real,
                  src: int, dest: int, u: real)
    requires Shaped(v) && TimeTree(v) && AllBranchesOrdered(v) && 0.0 <= u < 1.0
    requires 0 <= src < |v| && InvalidSrc(v, src) == Ok(false) && DestAccepted(v, src, dest)
    ensures v[src].parent != -1 && BinaryParent(v, src)
    ensures var s := Sister(v, src); var plan := Planned(v, ch, ln, expm, src, s, dest, u);
      plan.Go? ==>
        var m := WB.Max(v[src].height, v[dest].height); var top := v[v[dest].parent].height;
        NewRange(v, src, dest) > 0.0 && OldRange(v, src, s) > 0.0 &&
        plan.ratio == Sub(LogOf(ln, NewRange(v, src, dest)), LogOf(ln, OldRange(v, src, s))) &&
        m <= plan.age < top &&
        WB.OnActive(v[dest].height, v[dest].changeTimes, v[dest].changeTypes, m, top, plan.age)
  {
    ValidSourceInTimeTree(v, src);
    var s := Sister(v, src);
    var plan := Planned(v, ch, ln, expm, src, s, dest, u);
    if plan.Go? {
      var p := v[src].parent;
      var gp := v[p].parent;
      assert v[s].parent == p;
      var d := v[dest];
      var m := WB.Max(v[src].height, d.height);
      var top := v[d.parent].height;
      var newRange := NewRange(v, src, dest);
      WB.ActiveRangeNonNegative(d.height, d.changeTimes, d.changeTypes, m, top);
      WB.ActiveRangeNonNegative(v[s].height, v[s].changeTimes, v[s].changeTypes, WB.Max(v[src].height, v[s].height), v[p].height);
      WholeRangeNonNegative(v[p].height, v[p].changeTimes, v[p].changeTypes, v[gp].height);
      var x := WB.Drawn(u, newRange);
      WB.DrawnWithin(u, newRange);
      WB.MapAgeAbove(d.height, d.changeTimes, d.changeTypes, m, x);
      WB.MapAgeOnActive(d.height, d.changeTimes, d.changeTypes, m, top, x);
      WB.OnActiveWithin(d.height, d.changeTimes, d.changeTypes, m, top, plan.age);
    }
  }

  /* ---------------------------------------------------------------------
   * The move.
   */

  /** `logHR + ratio` after the retype, unless something threw. */
  function Ratioed(m: Move, ratio: Double): (r: Move)
    ensures r.view == m.view && r.params == m.params
    ensures r.result.Fail? <==> m.result.Fail?
  {
    if m.result.Fail? then m else Move(Ok(Add(m.result.value, ratio)), m.view, m.params)
  }

  /**
   * The non-root move: disconnectBranch(src), connectBranch(src, dest, age),
   * `logHR -= retypeBranch(src)` on the new tree, then `logHR += ratio`;
   * logHR starts as the probability of src's old path.
   */
  function Carried(v: seq<NodeRec>, ind: Option<Indicators>, ch: Chain, ln: real -> real, expm: (real, int, int) -> real,
                   src: int, dest: int, age: real, before: Double, ratio: Double, a: Attempt): (r: Move)
    requires Shaped(v) && 0 <= src < |v| && 0 <= dest < |v| && FitsOpt(ind, v)
    ensures Shaped(r.view) && |r.view| == |v| && FitsOpt(r.params, r.view)
  {
    var m := WB.Moved(v, ind, src, dest, age, before);
    if m.result.Fail? then Move(m.result, m.view, m.params)
    else AfterMove(m.view, m.params, ch, ln, expm, src, before, ratio, a)
  }

  /** What follows a completed surgery leaving w: the retype of src's branch and the two updates of logHR. */
  function AfterMove(w: seq<NodeRec>, ind: Option<Indicators>, ch: Chain, ln: real -> real, expm: (real, int, int) -> real,
                     src: int, before: Double, ratio: Double, a: Attempt): (r: Move)
    requires Shaped(w) && 0 <= src < |w| && FitsOpt(ind, w)
    ensures Shaped(r.view) && |r.view| == |w| && FitsOpt(r.params, r.view)
  {
    Ratioed(Finish(ThenRetype(Start(w, ind), ch, ln, expm, src, a), before), ratio)
  }

  /**
   * After the surgery, a finite result is `before` less the probability of
   * the path the retype gave src's branch, plus the ratio; the retype moves
   * no node and changes no branch but src's.
   */
  lemma AfterMoveRatio(w: seq<NodeRec>, ind: Option<Indicators>, ch: Chain, ln: real -> real, expm: (real, int, int) -> real,
                       src: int, before: Double, ratio: Double, a: Attempt)
    requires Shaped(w) && 0 <= src < |w| && FitsOpt(ind, w)
    ensures var r := AfterMove(w, ind, ch, ln, expm, src, before, ratio, a);
      Framed(w, r.view) &&
      (r.result.Ok? && r.result.value.Finite? ==>
         Prob(r.view, ch, ln, expm, src).Ok? &&
         r.result.value == Add(Sub(before, Prob(r.view, ch, ln, expm, src).value), ratio))
  {
    var m0 := Start(w, ind);
    var m1 := ThenRetype(m0, ch, ln, expm, src, a);
    ThenRetypeFinite(m0, ch, ln, expm, src, a);
    if m1.result.Ok? && Sub(before, m1.result.value).Finite? {
      SubFinite(before, m1.result.value);
      AddZero(Prob(m1.view, ch, ln, expm, src).value);
    }
  }

  /**
   * A finite move result is the probability of src's old path less that of
   * the path the retype gave it on the new tree, plus the range ratio.
   */
  lemma CarriedRatio(v: seq<NodeRec>, ind: Option<Indicators>, ch: Chain, ln: real -> real, expm: (real, int, int) -> real,
                     src: int, dest: int, age: real, before: Double, ratio: Double, a: Attempt)
    requires Shaped(v) && 0 <= src < |v| && 0 <= dest < |v| && FitsOpt(ind, v)
    ensures var r := Carried(v, ind, ch, ln, expm, src, dest, age, before, ratio, a);
      r.result.Ok? && r.result.value.Finite? ==>
        Prob(r.view, ch, ln, expm, src).Ok? &&
        r.result.value == Add(Sub(before, Prob(r.view, ch, ln, expm, src).value), ratio)
  {
    var m := WB.Moved(v, ind, src, dest, age, before);
    if m.result.Ok? {
      AfterMoveRatio(m.view, m.params, ch, ln, expm, src, before, ratio, a);
    }
  }

  /**
   * A completed move on a binary time tree: p sits at the age between src
   * and dest's old parent, src and dest hang from it, and the sister takes
   * p's place under the old grandparent; the retype after it moves nothing.
   */
  lemma CarriedLinks(v: seq<NodeRec>, ind: Option<Indicators>, ch: Chain, ln: real -> real, expm: (real, int, int) -> real,
                     src: int, dest: int, age: real, before: Double, ratio: Double, a: Attempt)
    requires Shaped(v) && 0 <= src < |v| && 0 <= dest < |v| && FitsOpt(ind, v) && WB.Movable(v, src, dest)
    ensures var r := Carried(v, ind, ch, ln, expm, src, dest, age, before, ratio, a); var w := r.view;
      var p := v[src].parent; var dp := v[dest].parent; var s := Sister(v, src);
      r.result.Ok? ==>
        w[p].height == age && w[src].parent == p && w[dest].parent == p && w[p].parent == dp &&
        w[s].parent == v[p].parent && src in w[p].children && dest in w[p].children && p in w[dp].children
  {
    var m := WB.Moved(v, ind, src, dest, age, before);
    WB.MovedLinks(v, ind, src, dest, age, before);
    if m.result.Ok? {
      AfterMoveRatio(m.view, m.params, ch, ln, expm, src, before, ratio, a);
      var r := AfterMove(m.view, m.params, ch, ln, expm, src, before, ratio, a);
      assert Carried(v, ind, ch, ln, expm, src, dest, age, before, ratio, a) == r;
      var w := r.view;
      var p := v[src].parent; var dp := v[dest].parent; var s := Sister(v, src);
      FramedAt(m.view, w, p);
      FramedAt(m.view, w, src);
      FramedAt(m.view, w, dest);
      FramedAt(m.view, w, dp);
      FramedAt(m.view, w, s);
    }
  }

  /** A retype keeps node i's height, links and type. */
  lemma FramedAt(u: seq<NodeRec>, w: seq<NodeRec>, i: int)
    requires Framed(u, w) && 0 <= i < |u|
    ensures w[i].height == u[i].height && w[i].parent == u[i].parent && w[i].children == u[i].children
  {
  }

  /** proposal() once src, its sister and dest are chosen. */
  function Decided(v: seq<NodeRec>, ind: Option<Indicators>, ch: Chain, ln: real -> real, expm: (real, int, int) -> real,
                   pk: Picked, u: real, a: Attempt): (r: Move)
    requires Shaped(v) && FitsOpt(ind, v)
    requires 0 <= pk.src < |v| && 0 <= pk.sister < |v| && 0 <= pk.dest < |v| && v[pk.src].parent != -1
    ensures Shaped(r.view) && |r.view| == |v| && FitsOpt(r.params, r.view)
  {
    match Planned(v, ch, ln, expm, pk.src, pk.sister, pk.dest, u)
    case Stop(r) => Move(r, v, ind)
    case Go(age, before, ratio) => Carried(v, ind, ch, ln, expm, pk.src, pk.dest, age, before, ratio, a)
  }

  /**
   * TypedWilsonBalding.proposal(): IllegalStateException below three
   * leaves, then the selections, the plan and the move.
   */
  function Proposal(v: seq<NodeRec>, leafCount: int, ind: Option<Indicators>, ch: Chain, ln: real -> real,
                    expm: (real, int, int) -> real, srcPicks: seq<nat>, destPicks: seq<nat>, u: real, a: Attempt)
    : (r: Move)
    requires Shaped(v) && FitsOpt(ind, v)
    ensures Shaped(r.view) && |r.view| == |v|
  {
    if leafCount < 3 then Move(Fail(IllegalState), v, ind)
    else
      match Selected(v, srcPicks, destPicks)
      case Fail(e) => Move(Fail(e), v, ind)
      case Ok(pk) => Decided(v, ind, ch, ln, expm, pk, u, a)
  }

  /**
   * A proposal with a finite result got past every test: at least three
   * leaves, a valid src whose parent is not the root, an accepted dest that
   * is not the root, and a plan that goes ahead; its result is the move of
   * that plan.
   */
  lemma AcceptedMove(v: seq<NodeRec>, leafCount: int, ind: Option<Indicators>, ch: Chain, ln: real -> real,
                     expm: (real, int, int) -> real, srcPicks: seq<nat>, destPicks: seq<nat>, u: real, a: Attempt)
    requires Shaped(v) && FitsOpt(ind, v)
    ensures var r := Proposal(v, leafCount, ind, ch, ln, expm, srcPicks, destPicks, u, a);
      r.result.Ok? && r.result.value.Finite? ==>
        leafCount >= 3 && Selected(v, srcPicks, destPicks).Ok? &&
        var pk := Selected(v, srcPicks, destPicks).value;
        var plan := Planned(v, ch, ln, expm, pk.src, pk.sister, pk.dest, u);
        plan.Go? && v[pk.dest].parent != -1 && v[v[pk.src].parent].parent != -1 &&
        r == Carried(v, ind, ch, ln, expm, pk.src, pk.dest, plan.age, plan.before, plan.ratio, a)
  {
  }

  /**
   * getRootBranchTypeProb(src): log(1/2) for the root's type plus the path
   * probabilities of src's branch and its sister's; a missing parent or
   * sister throws.
   */
  function RootBranchTypeProb(v: seq<NodeRec>, ch: Chain, ln: real -> real, expm: (real, int, int) -> real, src: int)
    : (r: Result<Double>)
    requires Shaped(v) && 0 <= src < |v|
    ensures v[src].parent == -1 ==> r == Fail(NullPointer)
  {
    if v[src].parent == -1 then Fail(NullPointer)
    else
      match SisterOf(v, src)
      case Fail(e) => Fail(e)
      case Ok(s) => Plus(Plus(Ok(Add(Finite(0.0), LogOf(ln, 0.5))), Prob(v, ch, ln, expm, src)), Prob(v, ch, ln, expm, s))
  }

  /** Double addition groups either way. */
  lemma AddAssociative(x: Double, y: Double, z: Double)
    ensures Add(Add(x, y), z) == Add(x, Add(y, z))
  {
    if x.Finite? && y.Finite? && z.Finite? {
      assert (x.v + y.v) + z.v == x.v + (y.v + z.v);
    }
  }

  /**
   * For a child of the root with two distinct children, the result is
   * log(1/2) plus the sum the operators take of the two branches' path
   * probabilities; it fails exactly when one of the two is the root.
   */
  lemma RootBranchTypeProbSplits(v: seq<NodeRec>, ch: Chain, ln: real -> real, expm: (real, int, int) -> real, src: int)
    requires Shaped(v) && 0 <= src < |v| && BinaryParent(v, src)
    ensures var s := Sister(v, src);
      RootBranchTypeProb(v, ch, ln, expm, src) == Plus(Ok(LogOf(ln, 0.5)), Before2(v, ch, ln, expm, src, s))
  {
    var s := Sister(v, src);
    var ps := Prob(v, ch, ln, expm, src);
    var pt := Prob(v, ch, ln, expm, s);
    AddZero(LogOf(ln, 0.5));
    if ps.Ok? && pt.Ok? {
      AddAssociative(LogOf(ln, 0.5), ps.value, pt.value);
    }
  }

  /* ---------------------------------------------------------------------
   * The proposal on the tree.
   */

  /** One round of the src loop: the draw at i decides, or the search moves on. */
  lemma PickSourceStep(v: seq<NodeRec>, picks: seq<nat>, i: nat)
    requires Shaped(v) && |v| > 0 && i < |picks|
    ensures var k := picks[i] % |v|;
      PickSource(v, picks[i..]) ==
        match InvalidSrc(v, k)
        case Fail(e) => Fail(e)
        case Ok(invalid) => if !invalid then Ok((k, 0)) else Later(PickSource(v, picks[i + 1..]), 1)
  {
    var q := picks[i..];
    assert q[0] == picks[i] && q[1..] == picks[i + 1..];
    PickSourceUnfold(v, q);
  }

  lemma LaterLater(r: Result<(int, nat)>, i: nat)
    ensures Later(Later(r, 1), i) == Later(r, i + 1)
  {
  }

  lemma PickSourceUnfold(v: seq<NodeRec>, q: seq<nat>)
    requires Shaped(v) && |v| > 0 && |q| > 0
    ensures PickSource(v, q) ==
      match InvalidSrc(v, q[0] % |v|)
      case Fail(e) => Fail(e)
      case Ok(invalid) => if !invalid then Ok((q[0] % |v|, 0)) else Later(PickSource(v, q[1..]), 1)
  {
  }

  /** The src do-while loop, as PickSource states it. */
  method DrawSource(v: seq<NodeRec>, picks: seq<nat>) returns (r: Result<(int, nat)>)
    requires Shaped(v) && |v| > 0
    ensures r == PickSource(v, picks)
  {
    var i := 0;
    while i < |picks|
      invariant 0 <= i <= |picks|
      invariant PickSource(v, picks) == Later(PickSource(v, picks[i..]), i)
      decreases |picks| - i
    {
      PickSourceStep(v, picks, i);
      LaterLater(PickSource(v, picks[i + 1..]), i);
      var k := picks[i] % |v|;
      var invalid := InvalidSrc(v, k);
      if invalid.Fail? {
        return Fail(invalid.error);
      }
      if !invalid.value {
        return Ok((k, i));
      }
      i := i + 1;
    }
    return Fail(DrawsExhausted);
  }

  /** The selections on a snapshot of the nodes. */
  method SelectOn(v: seq<NodeRec>, srcPicks: seq<nat>, destPicks: seq<nat>) returns (r: Result<Picked>)
    requires Shaped(v)
    ensures r == Selected(v, srcPicks, destPicks)
  {
    if |v| == 0 {
      return Fail(IllegalArgument);
    }
    var drawn := DrawSource(v, srcPicks);
    if drawn.Fail? {
      return Fail(drawn.error);
    }
    var src := drawn.value.0;
    var s := SisterOf(v, src);
    if s.Fail? {
      return Fail(s.error);
    }
    drawn := DrawUntil(|v|, destPicks, k => DestAccepted(v, src, k));
    if drawn.Fail? {
      return Fail(drawn.error);
    }
    r := Ok(Picked(src, s.value, drawn.value.0));
  }

  /** The loop that sums the active length of a whole branch. */
  method CollectWholeRange(n: SeedbankNode, top: real) returns (range: real)
    requires n.Valid()
    ensures range == WholeRange(n.height, n.changeTimes, n.changeTypes, top)
  {
    range := 0.0;
    var last := n.height;
    var i := 0;
    while i < n.nTypeChanges
      invariant 0 <= i <= n.nTypeChanges
      invariant range + WholeRange(last, n.changeTimes[i..], n.changeTypes[i..], top) ==
                WholeRange(n.height, n.changeTimes, n.changeTypes, top)
    {
      assert n.changeTimes[i..][1..] == n.changeTimes[i + 1..];
      assert n.changeTypes[i..][1..] == n.changeTypes[i + 1..];
      var cur := n.changeTimes[i];
      if n.changeTypes[i] == 0 {
        range := range + (cur - last);
      }
      last := cur;
      i := i + 1;
    }
    range := range + (top - last);
  }

  /** The two ranges on the tree. */
  method Ranges(t: SeedbankTree, src: int, s: int, dest: int) returns (newRange: real, oldRange: real)
    requires t.Wf() && 0 <= src < |t.nodes| && 0 <= s < |t.nodes| && 0 <= dest < |t.nodes|
    requires t.View()[src].parent != -1 && t.View()[t.View()[src].parent].parent != -1 && t.View()[dest].parent != -1
    ensures newRange == NewRange(t.View(), src, dest) && oldRange == OldRange(t.View(), src, s)
  {
    ghost var v := t.View();
    var srcNode := t.nodes[src];
    var destNode := t.nodes[dest];
    var sister := t.nodes[s];
    assert srcNode.Record() == v[src] && destNode.Record() == v[dest] && sister.Record() == v[s];
    var srcP := t.nodes[srcNode.parent];
    var destP := t.nodes[destNode.parent];
    assert srcP.Record() == v[srcNode.parent] && destP.Record() == v[destNode.parent];
    var srcPP := t.nodes[srcP.parent];
    assert srcPP.Record() == v[srcP.parent];
    newRange := WB.CollectRange(destNode, WB.Max(srcNode.height, destNode.height), destP.height);
    oldRange := WB.CollectRange(sister, WB.Max(srcNode.height, sister.height), srcP.height);
    var whole := CollectWholeRange(srcP, srcPP.height);
    oldRange := oldRange + whole;
  }

  /** The read-only part of proposal() after the selections, as Planned states it. */
  method PlanAt(t: SeedbankTree, ch: Chain, ln: real -> real, expm: (real, int, int) -> real,
                src: int, s: int, dest: int, u: real) returns (plan: Plan)
    requires t.Wf() && 0 <= src < |t.nodes| && 0 <= s < |t.nodes| && 0 <= dest < |t.nodes|
    requires t.View()[src].parent != -1
    ensures plan == Planned(t.View(), ch, ln, expm, src, s, dest, u)
  {
    ghost var v := t.View();
    var srcNode := t.nodes[src];
    var destNode := t.nodes[dest];
    assert srcNode.Record() == v[src] && destNode.Record() == v[dest];
    var srcP := t.nodes[srcNode.parent];
    assert srcP.Record() == v[srcNode.parent];
    if destNode.parent == -1 || srcP.parent == -1 {
      return Stop(Ok(NegInf));
    }
    var before := GetProb(t, ch, ln, expm, src);
    var newRange, oldRange := Ranges(t, src, s, dest);
    var m := WB.Max(srcNode.height, destNode.height);
    ghost var mappedSpec := WB.MapAge(v[dest].height, v[dest].changeTimes, v[dest].changeTypes, m, WB.Drawn(u, newRange));
    PlannedIs(v, ch, ln, expm, src, s, dest, u, before.value, newRange, oldRange, mappedSpec);
    if oldRange == 0.0 || newRange == 0.0 {
      return Stop(Ok(NegInf));
    }
    var mapped := WB.MapNewAge(destNode, m, WB.Drawn(u, newRange));
    if mapped.Rejected? {
      return Stop(Ok(NegInf));
    }
    plan := Go(mapped.value, before.value, Sub(LogOf(ln, newRange), LogOf(ln, oldRange)));
  }

  /** Planned, for the probability, the ranges and the mapping computed from v. */
  lemma PlannedIs(v: seq<NodeRec>, ch: Chain, ln: real -> real, expm: (real, int, int) -> real,
                  src: int, s: int, dest: int, u: real, before: Double, newRange: real, oldRange: real, mapped: WB.Mapped)
    requires Shaped(v) && 0 <= src < |v| && 0 <= s < |v| && 0 <= dest < |v| && v[src].parent != -1
    requires v[dest].parent != -1 && v[v[src].parent].parent != -1
    requires Prob(v, ch, ln, expm, src) == Ok(before)
    requires newRange == NewRange(v, src, dest) && oldRange == OldRange(v, src, s)
    requires mapped == WB.MapAge(v[dest].height, v[dest].changeTimes, v[dest].changeTypes,
                                 WB.Max(v[src].height, v[dest].height), WB.Drawn(u, newRange))
    ensures Planned(v, ch, ln, expm, src, s, dest, u) ==
      if oldRange == 0.0 || newRange == 0.0 || mapped.Rejected? then Stop(Ok(NegInf))
      else Go(mapped.value, before, Sub(LogOf(ln, newRange), LogOf(ln, oldRange)))
  {
  }

  /** The move and the retype, as Carried states them. */
  method MoveAndRetype(t: SeedbankTree, lambdas: array?<Double>, etas: array?<int>, ch: Chain, ln: real -> real,
                       expm: (real, int, int) -> real, src: int, dest: int, age: real, before: Double, ratio: Double,
                       a: Attempt) returns (r: Result<Double>)
    requires t.Wf() && NoSelfChild(t.View()) && 0 <= src < |t.nodes| && 0 <= dest < |t.nodes|
    requires lambdas != null ==> lambdas.Length == |t.nodes|
    requires etas != null ==> etas.Length == |t.nodes|
    modifies t.nodes, lambdas, etas
    ensures t.Wf()
    ensures Move(r, t.View(), ParamsOf(lambdas, etas)) ==
      Carried(old(t.View()), old(ParamsOf(lambdas, etas)), ch, ln, expm, src, dest, age, before, ratio, a)
  {
    r := WB.Move(t, lambdas, etas, src, dest, age, before);
    if r.Fail? {
      return r;
    }
    r := RetypeAfter(t, lambdas, etas, ch, ln, expm, src, before, ratio, a);
  }

  /** The retype after the surgery and the two updates of logHR, as AfterMove states them. */
  method RetypeAfter(t: SeedbankTree, lambdas: array?<Double>, etas: array?<int>, ch: Chain, ln: real -> real,
                     expm: (real, int, int) -> real, src: int, before: Double, ratio: Double, a: Attempt)
    returns (r: Result<Double>)
    requires t.Wf() && 0 <= src < |t.nodes|
    requires lambdas != null ==> lambdas.Length == |t.nodes|
    requires etas != null ==> etas.Length == |t.nodes|
    modifies t.nodes[src], lambdas, etas
    ensures t.Wf()
    ensures Move(r, t.View(), ParamsOf(lambdas, etas)) ==
      AfterMove(old(t.View()), old(ParamsOf(lambdas, etas)), ch, ln, expm, src, before, ratio, a)
  {
    var sum := RetypeAdding(t, lambdas, etas, ch, ln, expm, src, Ok(Finite(0.0)), a);
    if sum.Fail? {
      return sum;
    }
    r := Ok(Add(Sub(before, sum.value), ratio));
  }

  /**
   * TypedWilsonBalding.proposal on the tree and the optional lambdas and
   * etas, as Proposal states it.
   */
  method Propose(t: SeedbankTree, lambdas: array?<Double>, etas: array?<int>, ch: Chain, ln: real -> real,
                 expm: (real, int, int) -> real, srcPicks: seq<nat>, destPicks: seq<nat>, u: real, a: Attempt)
    returns (r: Result<Double>)
    requires t.Wf() && NoSelfChild(t.View())
    requires lambdas != null ==> lambdas.Length == |t.nodes|
    requires etas != null ==> etas.Length == |t.nodes|
    modifies t.nodes, lambdas, etas
    ensures t.Wf()
    ensures Move(r, t.View(), ParamsOf(lambdas, etas)) ==
      Proposal(old(t.View()), old(t.leafNodeCount), old(ParamsOf(lambdas, etas)), ch, ln, expm, srcPicks, destPicks, u, a)
  {
    if t.leafNodeCount < 3 {
      return Fail(IllegalState);
    }
    var picked := SelectOn(t.View(), srcPicks, destPicks);
    if picked.Fail? {
      return Fail(picked.error);
    }
    r := Decide(t, lambdas, etas, ch, ln, expm, picked.value, u, a);
  }

  /** proposal() once the nodes are chosen, as Decided states it. */
  method Decide(t: SeedbankTree, lambdas: array?<Double>, etas: array?<int>, ch: Chain, ln: real -> real,
                expm: (real, int, int) -> real, pk: Picked, u: real, a: Attempt) returns (r: Result<Double>)
    requires t.Wf() && NoSelfChild(t.View())
    requires 0 <= pk.src < |t.nodes| && 0 <= pk.sister < |t.nodes| && 0 <= pk.dest < |t.nodes| && t.View()[pk.src].parent != -1
    requires lambdas != null ==> lambdas.Length == |t.nodes|
    requires etas != null ==> etas.Length == |t.nodes|
    modifies t.nodes, lambdas, etas
    ensures t.Wf()
    ensures Move(r, t.View(), ParamsOf(lambdas, etas)) ==
      Decided(old(t.View()), old(ParamsOf(lambdas, etas)), ch, ln, expm, pk, u, a)
  {
    var plan := PlanAt(t, ch, ln, expm, pk.src, pk.sister, pk.dest, u);
    if plan.Stop? {
      return plan.result;
    }
    r := MoveAndRetype(t, lambdas, etas, ch, ln, expm, pk.src, pk.dest, plan.age, plan.before, plan.ratio, a);
  }
}
