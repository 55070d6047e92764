// Retyping the branch above a node by uniformization and forward-backward
// sampling (Fearnhead and Sherlock 2006), conditioned on the types at both
// ends of the branch, and the probability of the type path a branch
// carries.
//
// The numerical parts stay abstract: the rate matrix Q, the jump matrix R
// of the uniformized chain and its powers are total functions given by
// the caller, the end-point probability Pba (an entry of expm(Q L)) is a
// parameter, and so is the number of virtual events that drawEventCount
// samples. The uniform draws are sequences of reals in [0, 1).

module Retype {
  import opened Wrappers
  import opened Doubles
  import opened Sorting
  import opened SeedbankNodes
  import opened SeedbankTrees
  import opened TreeSurgery

  /** Q, R and the powers R^n of the transition model, as getQ, getR and getRpowN give them. */
  datatype Chain = Chain(q: (int, int) -> real, r: (int, int) -> real, rpow: (int, int, int) -> real)

  /* ---------------------------------------------------------------------
   * The forward-backward choice of the virtual types.
   */

  /** The mass of candidate c: R[prev][c] * R^k[c][end]. */
  function Mass(ch: Chain, prev: int, c: int, end: int, k: int): real
  {
    ch.r(prev, c) * ch.rpow(k, c, end)
  }

  /** The mass of the candidates up to and including c. */
  function Cumulative(ch: Chain, prev: int, c: int, end: int, k: int): real
  {
    if c == 0 then Mass(ch, prev, 0, end, k) else Mass(ch, prev, 0, end, k) + Mass(ch, prev, 1, end, k)
  }

  /**
   * The inner loop over c = 0, 1: the scaled draw u2 loses each candidate's
   * mass in turn and the first c that takes it below 0 is chosen; None when
   * the loop falls through.
   */
  function Candidate(ch: Chain, prev: int, end: int, k: int, u2: real): (r: Option<int>)
    ensures r.Some? ==> r.value == 0 || r.value == 1
  {
    var left := u2 - Mass(ch, prev, 0, end, k);
    if left < 0.0 then Some(0)
    else if left - Mass(ch, prev, 1, end, k) < 0.0 then Some(1)
    else None
  }

  /** The choice is the first candidate whose cumulative mass exceeds the scaled draw. */
  lemma CandidateIsFirstAbove(ch: Chain, prev: int, end: int, k: int, u2: real)
    ensures Candidate(ch, prev, end, k, u2) == Some(0) <==> u2 < Cumulative(ch, prev, 0, end, k)
    ensures Candidate(ch, prev, end, k, u2) == Some(1) <==>
      Cumulative(ch, prev, 0, end, k) <= u2 < Cumulative(ch, prev, 1, end, k)
    ensures Candidate(ch, prev, end, k, u2).None? <==>
      Cumulative(ch, prev, 0, end, k) <= u2 && Cumulative(ch, prev, 1, end, k) <= u2
  {
  }

  /** The uniform draw u scaled by the mass of every path from prev to end in k jumps. */
  function Scaled(u: real, mass: real): real
  {
    u * mass
  }

  /**
   * The outer loop from type prev with k virtual events left: each draw,
   * scaled by R^k[prev][end], picks the next type. Ok(None) when a choice
   * falls through; DrawsExhausted when the draws run out first.
   */
  function Forward(ch: Chain, prev: int, end: int, k: nat, draws: seq<real>): (r: Result<Option<seq<int>>>)
    ensures r.Ok? && r.value.Some? ==> |r.value.value| == k && AllBinary(r.value.value)
    ensures r.Fail? ==> r.error == DrawsExhausted && |draws| < k
    decreases k
  {
    if k == 0 then Ok(Some([]))
    else if |draws| == 0 then Fail(DrawsExhausted)
    else
      match Candidate(ch, prev, end, k - 1, Scaled(draws[0], ch.rpow(k, prev, end)))
      case None => Ok(None)
      case Some(c) =>
        match Forward(ch, c, end, k - 1, draws[1..])
        case Fail(e) => Fail(e)
        case Ok(None) => Ok(None)
        case Ok(Some(rest)) => Ok(Some([c] + rest))
  }

  /** The type before virtual event i: the start type, then each drawn type in turn. */
  function Before(start: int, types: seq<int>, i: int): int
    requires 0 <= i <= |types|
  {
    if i == 0 then start else types[i - 1]
  }

  /**
   * Event i of k chose its type: the candidate from the type before it,
   * with k - 1 - i events left, on the i-th draw.
   */
  predicate ChoiceAt(ch: Chain, start: int, end: int, k: nat, draws: seq<real>, types: seq<int>, i: nat)
    requires i < k <= |draws| && |types| == k
  {
    var prev := Before(start, types, i);
    Candidate(ch, prev, end, k - 1 - i, Scaled(draws[i], ch.rpow(k - i, prev, end))) == Some(types[i])
  }

  /** Event i + 1 of the whole draw is event i of the draw after the first. */
  lemma ChoiceShift(ch: Chain, start: int, end: int, k: nat, draws: seq<real>, c: int, rest: seq<int>, i: nat)
    requires i + 1 < k <= |draws| && |rest| == k - 1
    requires ChoiceAt(ch, c, end, k - 1, draws[1..], rest, i)
    ensures ChoiceAt(ch, start, end, k, draws, [c] + rest, i + 1)
  {
    var types := [c] + rest;
    assert Before(start, types, i + 1) == Before(c, rest, i);
    assert draws[i + 1] == draws[1..][i];
    assert types[i + 1] == rest[i];
  }

  /** Event by event, every drawn type is the candidate chosen for it. */
  lemma {:induction false} ForwardChoices(ch: Chain, prev: int, end: int, k: nat, draws: seq<real>)
    requires Forward(ch, prev, end, k, draws).Ok? && Forward(ch, prev, end, k, draws).value.Some?
    ensures var types := Forward(ch, prev, end, k, draws).value.value;
      |draws| >= k && forall i: nat :: i < k ==> ChoiceAt(ch, prev, end, k, draws, types, i)
    decreases k
  {
    if k > 0 {
      var types := Forward(ch, prev, end, k, draws).value.value;
      var c := types[0];
      ForwardChoices(ch, c, end, k - 1, draws[1..]);
      var rest := Forward(ch, c, end, k - 1, draws[1..]).value.value;
      assert types == [c] + rest;
      assert ChoiceAt(ch, prev, end, k, draws, types, 0);
      forall i: nat | 1 <= i < k
        ensures ChoiceAt(ch, prev, end, k, draws, types, i)
      {
        ChoiceShift(ch, prev, end, k, draws, c, rest, i - 1);
      }
    }
  }

  /** The forward-backward loop of retypeBranch, on its own. */
  method SampleTypes(ch: Chain, start: int, end: int, n: nat, draws: seq<real>) returns (r: Result<Option<seq<int>>>)
    ensures r == Forward(ch, start, end, n, draws)
  {
    var types: seq<int> := [];
    var prev := start;
    var i := 1;
    assert draws[0..] == draws;
    JoinedNothing(Forward(ch, start, end, n, draws));
    while i <= n
      invariant 1 <= i <= n + 1 && |types| == i - 1 && i - 1 <= |draws|
      invariant prev == Before(start, types, i - 1)
      invariant Forward(ch, start, end, n, draws) == Joined(types, Forward(ch, prev, end, n - i + 1, draws[i - 1..]))
    {
      if |draws| < i {
        return Fail(DrawsExhausted);
      }
      var u2 := Scaled(draws[i - 1], ch.rpow(n - i + 1, prev, end));
      var c := Candidate(ch, prev, end, n - i, u2);
      if c.None? {
        return Ok(None);
      }
      assert draws[i - 1..][1..] == draws[i..];
      JoinedStep(types, c.value, Forward(ch, c.value, end, n - i, draws[i..]));
      types := types + [c.value];
      prev := c.value;
      i := i + 1;
    }
    assert types + [] == types;
    r := Ok(Some(types));
  }

  /** A finished prefix of types in front of what the rest of the loop yields. */
  function Joined(done: seq<int>, rest: Result<Option<seq<int>>>): Result<Option<seq<int>>>
  {
    match rest
    case Fail(e) => Fail(e)
    case Ok(None) => Ok(None)
    case Ok(Some(t)) => Ok(Some(done + t))
  }

  lemma JoinedNothing(rest: Result<Option<seq<int>>>)
    ensures Joined([], rest) == rest
  {
    if rest.Ok? && rest.value.Some? {
      assert [] + rest.value.value == rest.value.value;
    }
  }

  lemma JoinedStep(done: seq<int>, c: int, rest: Result<Option<seq<int>>>)
    ensures Joined(done, Joined([c], rest)) == Joined(done + [c], rest)
  {
    if rest.Ok? && rest.value.Some? {
      assert done + ([c] + rest.value.value) == done + [c] + rest.value.value;
    }
  }

  /* ---------------------------------------------------------------------
   * The virtual event times.
   */

  function VirtualTime(u: real, length: real, start: real): real
  {
    u * length + start
  }

  /** nVirt draws spread over the branch and sorted (Arrays.sort). */
  function VirtualTimes(draws: seq<real>, n: nat, length: real, start: real): (r: seq<real>)
    requires |draws| >= n
    ensures Sorted(r) && |r| == n
  {
    var raw := seq(n, i requires 0 <= i < n => VirtualTime(draws[i], length, start));
    SortRealsSorts(raw);
    SortReals(raw)
  }

  /** Draws in [0, 1) on a branch of positive length give times in [start, start + length). */
  lemma VirtualTimeWithin(u: real, length: real, start: real)
    requires 0.0 <= u < 1.0 && length > 0.0
    ensures start <= VirtualTime(u, length, start) < start + length
  {
    assert (1.0 - u) * length > 0.0;
  }

  lemma VirtualTimesWithin(draws: seq<real>, n: nat, length: real, start: real)
    requires |draws| >= n && length > 0.0
    requires forall i :: 0 <= i < |draws| ==> 0.0 <= draws[i] < 1.0
    ensures forall i :: 0 <= i < n ==> start <= VirtualTimes(draws, n, length, start)[i] < start + length
  {
    var raw := seq(n, i requires 0 <= i < n => VirtualTime(draws[i], length, start));
    forall i | 0 <= i < n ensures start <= raw[i] < start + length {
      VirtualTimeWithin(draws[i], length, start);
    }
    SortRealsSorts(raw);
    PermutationKeepsBounds(raw, VirtualTimes(draws, n, length, start), start, start + length);
  }

  method SampleTimes(draws: seq<real>, n: nat, length: real, start: real) returns (times: seq<real>)
    requires |draws| >= n
    ensures times == VirtualTimes(draws, n, length, start)
  {
    var raw: seq<real> := [];
    var i := 0;
    while i < n
      invariant 0 <= i <= n && |raw| == i
      invariant forall j :: 0 <= j < i ==> raw[j] == VirtualTime(draws[j], length, start)
    {
      raw := raw + [VirtualTime(draws[i], length, start)];
      i := i + 1;
    }
    assert raw == seq(n, i requires 0 <= i < n => VirtualTime(draws[i], length, start));
    times := SortReals(raw);
  }

  /* ---------------------------------------------------------------------
   * The collapse of the virtual events into recorded changes.
   */

  /** The changes kept: a virtual event is recorded when its type differs from the last kept type. */
  function Collapsed(start: int, types: seq<int>, times: seq<real>): (r: (seq<int>, seq<real>))
    requires |types| == |times|
    ensures |r.0| == |r.1| <= |types|
    decreases |types|
  {
    if |types| == 0 then ([], [])
    else
      var n := |types| - 1;
      var c := Collapsed(start, types[..n], times[..n]);
      if types[n] != FinalType(start, c.0) then (c.0 + [types[n]], c.1 + [times[n]]) else c
  }

  /** The collapse of one more virtual event. */
  lemma CollapsedStep(start: int, types: seq<int>, times: seq<real>, i: int)
    requires |types| == |times| && 0 <= i < |types|
    ensures var c := Collapsed(start, types[..i], times[..i]);
      Collapsed(start, types[..i + 1], times[..i + 1]) ==
        if types[i] != FinalType(start, c.0) then (c.0 + [types[i]], c.1 + [times[i]]) else c
  {
    assert types[..i + 1][..i] == types[..i];
    assert times[..i + 1][..i] == times[..i];
  }

  /** Consecutive recorded types differ, and the first differs from the start type. */
  predicate Alternating(start: int, types: seq<int>)
  {
    (|types| > 0 ==> types[0] != start) &&
    forall i :: 0 <= i < |types| - 1 ==> types[i] != types[i + 1]
  }

  lemma {:induction false} CollapsedAlternates(start: int, types: seq<int>, times: seq<real>)
    requires |types| == |times|
    ensures Alternating(start, Collapsed(start, types, times).0)
    decreases |types|
  {
    if |types| > 0 {
      var n := |types| - 1;
      CollapsedAlternates(start, types[..n], times[..n]);
    }
  }

  /** The branch ends in the type of the last virtual event, kept or not. */
  lemma {:induction false} CollapsedEndType(start: int, types: seq<int>, times: seq<real>)
    requires |types| == |times|
    ensures FinalType(start, Collapsed(start, types, times).0) == FinalType(start, types)
    decreases |types|
  {
    if |types| > 0 {
      var n := |types| - 1;
      CollapsedEndType(start, types[..n], times[..n]);
    }
  }

  lemma {:induction false} CollapsedBinary(start: int, types: seq<int>, times: seq<real>)
    requires |types| == |times| && AllBinary(types)
    ensures AllBinary(Collapsed(start, types, times).0)
    decreases |types|
  {
    if |types| > 0 {
      var n := |types| - 1;
      CollapsedBinary(start, types[..n], times[..n]);
    }
  }

  /**
   * Every recorded time is one of the virtual times; sorted virtual times
   * give sorted recorded times.
   */
  lemma {:induction false} CollapsedTimes(start: int, types: seq<int>, times: seq<real>)
    requires |types| == |times|
    ensures forall k :: 0 <= k < |Collapsed(start, types, times).1| ==> Collapsed(start, types, times).1[k] in times
    ensures Sorted(times) ==> Sorted(Collapsed(start, types, times).1)
    decreases |types|
  {
    if |types| > 0 {
      var n := |types| - 1;
      CollapsedTimes(start, types[..n], times[..n]);
      var c := Collapsed(start, types[..n], times[..n]);
      forall k | 0 <= k < |c.1| ensures c.1[k] in times {
        assert c.1[k] in times[..n];
      }
      if Sorted(times) {
        forall k | 0 <= k < |c.1| ensures c.1[k] <= times[n] {
          assert c.1[k] in times[..n];
          var j :| 0 <= j < n && times[..n][j] == c.1[k];
          assert times[j] == c.1[k];
        }
        assert Sorted(times[..n]);
      }
    }
  }

  /* ---------------------------------------------------------------------
   * The probability of a type path.
   */

  /** The holding term of a stretch in type `ty` from `from` to `to`: Q[ty][ty] times its length. */
  function Holding(ch: Chain, ty: int, from: real, to: real): real
  {
    ch.q(ty, ty) * (to - from)
  }

  /** One change's term: the holding term since the last change, plus log Q[last][ty]. */
  function Segment(ch: Chain, ln: real -> real, lastTime: real, lastType: int, ty: int, time: real): Double
  {
    Add(Finite(Holding(ch, lastType, lastTime, time)), LogOf(ln, ch.q(lastType, ty)))
  }

  /** The terms of the changes of a branch from `start` in `startType`, summed in order. */
  function PathTerms(ch: Chain, ln: real -> real, start: real, startType: int, types: seq<int>, times: seq<real>): Double
    requires |types| == |times|
    decreases |types|
  {
    if |types| == 0 then Finite(0.0)
    else
      var n := |types| - 1;
      Add(PathTerms(ch, ln, start, startType, types[..n], times[..n]),
          Segment(ch, ln, PrevTime(start, times[..n]), FinalType(startType, types[..n]), types[n], times[n]))
  }

  /** The decay term of the last stretch, up to the parent at `top`. */
  function Closing(ch: Chain, start: real, startType: int, types: seq<int>, times: seq<real>, top: real): real
  {
    Holding(ch, FinalType(startType, types), PrevTime(start, times), top)
  }

  /** The log probability of the path given its start type, less log Pba for the end condition. */
  function PathProb(ch: Chain, ln: real -> real, start: real, startType: int, types: seq<int>, times: seq<real>,
                    top: real, pba: real): Double
    requires |types| == |times|
  {
    Sub(Add(PathTerms(ch, ln, start, startType, types, times), Finite(Closing(ch, start, startType, types, times, top))),
        LogOf(ln, pba))
  }

  /** Pba outside [0, 1] is rubbish from the matrix exponential. */
  predicate Rubbish(pba: real)
  {
    pba > 1.0 || pba < 0.0
  }

  /**
   * getBranchTypeProb: the probability of the path on node's branch; a
   * NullPointerException for the root and -infinity for rubbish Pba.
   */
  function BranchTypeProb(v: seq<NodeRec>, ch: Chain, ln: real -> real, node: int, pba: real): (r: Result<Double>)
    requires Shaped(v) && 0 <= node < |v|
    ensures r.Fail? <==> v[node].parent == -1
    ensures r.Ok? && Rubbish(pba) ==> r.value == NegInf
  {
    var p := v[node].parent;
    if p == -1 then Fail(NullPointer)
    else if Rubbish(pba) then Ok(NegInf)
    else
      var n := v[node];
      Ok(PathProb(ch, ln, n.height, n.nodeType, n.changeTypes, n.changeTimes, v[p].height, pba))
  }

  method GetBranchTypeProb(t: SeedbankTree, ch: Chain, ln: real -> real, node: int, pba: real) returns (r: Result<Double>)
    requires t.Wf() && 0 <= node < |t.nodes|
    ensures r == BranchTypeProb(t.View(), ch, ln, node, pba)
  {
    var n := t.nodes[node];
    assert t.View()[node] == n.Record();
    if n.parent == -1 {
      return Fail(NullPointer);
    }
    var logProb := Finite(0.0);
    var lastTime := n.height;
    var lastCol := n.nodeType;
    var i := 0;
    while i < n.nTypeChanges
      invariant 0 <= i <= n.nTypeChanges
      invariant logProb == PathTerms(ch, ln, n.height, n.nodeType, n.changeTypes[..i], n.changeTimes[..i])
      invariant lastTime == PrevTime(n.height, n.changeTimes[..i])
      invariant lastCol == FinalType(n.nodeType, n.changeTypes[..i])
    {
      assert n.changeTypes[..i + 1][..i] == n.changeTypes[..i];
      assert n.changeTimes[..i + 1][..i] == n.changeTimes[..i];
      var thisTime := n.changeTimes[i];
      var thisCol := n.changeTypes[i];
      logProb := Add(logProb, Segment(ch, ln, lastTime, lastCol, thisCol, thisTime));
      lastTime := thisTime;
      lastCol := thisCol;
      i := i + 1;
    }
    assert n.changeTypes[..i] == n.changeTypes && n.changeTimes[..i] == n.changeTimes;
    var top := t.nodes[n.parent].height;
    assert t.View()[n.parent].height == top;
    logProb := Add(logProb, Finite(Holding(ch, lastCol, lastTime, top)));
    if Rubbish(pba) {
      return Ok(NegInf);
    }
    r := Ok(Sub(logProb, LogOf(ln, pba)));
    assert r == Ok(PathProb(ch, ln, n.height, n.nodeType, n.changeTypes, n.changeTimes, top, pba));
  }

  /* ---------------------------------------------------------------------
   * retypeBranch.
   */

  /** What the sampling leaves: an aborted move (-infinity, branch untouched) or the path to write. */
  datatype Path = Aborted | Path(types: seq<int>, times: seq<real>, logProb: Double)

  /** What the checks and the two sampling loops leave: an early result, or the virtual events. */
  datatype Draft = Stopped(result: Result<Path>) | Events(types: seq<int>, times: seq<real>)

  /** retypeBranch up to the collapse: a NullPointerException for the root, then DraftedOn. */
  function Drafted(v: seq<NodeRec>, ch: Chain, node: int, pba: real, nVirt: int,
                   timeDraws: seq<real>, typeDraws: seq<real>): (r: Draft)
    requires Shaped(v) && 0 <= node < |v|
    ensures r.Stopped? ==> r.result in {Fail(NullPointer), Fail(DrawsExhausted), Ok(Aborted)}
    ensures r.Events? ==> v[node].parent != -1 && |r.types| == |r.times| == nVirt
  {
    var p := v[node].parent;
    if p == -1 then Stopped(Fail(NullPointer))
    else DraftedOn(ch, v[node].height, v[node].nodeType, v[p].height, v[p].nodeType, pba, nVirt, timeDraws, typeDraws)
  }

  /**
   * retypeBranch up to the write: the early result, or the collapsed
   * changes of the virtual events and their path probability.
   */
  function Sampled(v: seq<NodeRec>, ch: Chain, ln: real -> real, node: int, pba: real, nVirt: int,
                   timeDraws: seq<real>, typeDraws: seq<real>): (r: Result<Path>)
    requires Shaped(v) && 0 <= node < |v|
    ensures r.Fail? ==> r.error == NullPointer || r.error == DrawsExhausted
  {
    match Drafted(v, ch, node, pba, nVirt, timeDraws, typeDraws)
    case Stopped(res) => res
    case Events(types, times) =>
      var n := v[node];
      var c := Collapsed(n.nodeType, types, times);
      Ok(Path(c.0, c.1, PathProb(ch, ln, n.height, n.nodeType, c.0, c.1, v[n.parent].height, pba)))
  }

  /** The arena with node's changes replaced by the path's. */
  function Written(v: seq<NodeRec>, node: int, path: Path): (w: seq<NodeRec>)
    requires Shaped(v) && 0 <= node < |v| && path.Path? && |path.types| == |path.times|
    ensures Shaped(w) && |w| == |v|
    ensures w[node] == v[node].(changeTypes := path.types, changeTimes := path.times, changeCount := |path.types|)
    ensures forall i :: 0 <= i < |v| && i != node ==> w[i] == v[i]
  {
    assert [] + path.types == path.types && [] + path.times == path.times;
    AppendIn(ClearIn(v, node), node, path.types, path.times)
  }

  /** The parameters after recalculateLambda on node, when both are present. */
  function RecalcOpt(ind: Option<Indicators>, v: seq<NodeRec>, node: int): Option<Indicators>
    requires Shaped(v) && 0 <= node < |v| && (ind.Some? ==> Fits(ind.value, v))
  {
    if ind.Some? then Some(Recalc(ind.value, v, node)) else None
  }

  /** The value retypeBranch returns for a sampling. */
  function Returned(s: Result<Path>): Result<Double>
  {
    match s
    case Fail(e) => Fail(e)
    case Ok(Aborted) => Ok(NegInf)
    case Ok(Path(_, _, lp)) => Ok(lp)
  }

  /**
   * The collapse loop: node's changes are cleared and each virtual event
   * whose type differs from the last kept one is added, while the path
   * terms are summed; then the closing term.
   */
  method WritePath(t: SeedbankTree, ch: Chain, ln: real -> real, node: int, types: seq<int>, times: seq<real>, top: real)
    returns (logProb: Double)
    requires t.Wf() && 0 <= node < |t.nodes| && |types| == |times|
    modifies t.nodes[node]
    ensures t.Wf()
    ensures var n := old(t.View())[node]; var c := Collapsed(n.nodeType, types, times);
      t.View() == AppendIn(ClearIn(old(t.View()), node), node, c.0, c.1) &&
      logProb == Add(PathTerms(ch, ln, n.height, n.nodeType, c.0, c.1),
                     Finite(Closing(ch, n.height, n.nodeType, c.0, c.1, top)))
  {
    ghost var v := t.View();
    ClearAt(t, node);
    logProb := CollapseAt(t, ch, ln, node, types, times, top);
  }

  /** The collapse loop on node, whose changes have been cleared. */
  method CollapseAt(t: SeedbankTree, ch: Chain, ln: real -> real, node: int, types: seq<int>, times: seq<real>, top: real)
    returns (logProb: Double)
    requires t.Wf() && 0 <= node < |t.nodes| && |types| == |times|
    requires t.View()[node].changeTypes == [] && t.View()[node].changeTimes == []
    modifies t.nodes[node]
    ensures t.Wf()
    ensures var n := old(t.View())[node]; var c := Collapsed(n.nodeType, types, times);
      t.View() == AppendIn(old(t.View()), node, c.0, c.1) &&
      logProb == Add(PathTerms(ch, ln, n.height, n.nodeType, c.0, c.1),
                     Finite(Closing(ch, n.height, n.nodeType, c.0, c.1, top)))
  {
    ghost var v := t.View();
    var nd := t.nodes[node];
    assert v[node] == nd.Record();
    var start := nd.height;
    var startType := nd.nodeType;
    ghost var c := Collapsed(startType, types, times);
    logProb := CollapseOnto(nd, ch, ln, start, startType, types, times, top);
    AppendedOnEmpty(v, node, c.0, c.1, nd.Record());
    forall i | 0 <= i < |t.nodes| ensures t.View()[i] == v[node := nd.Record()][i] {
      if i != node {
        assert t.nodes[i] != t.nodes[node];
      }
    }
    assert t.View() == v[node := nd.Record()];
  }

  /** On a node with no changes, appending a path is setting its changes to the path. */
  lemma AppendedOnEmpty(v: seq<NodeRec>, node: int, types: seq<int>, times: seq<real>, rec: NodeRec)
    requires Shaped(v) && 0 <= node < |v| && |types| == |times|
    requires v[node].changeTypes == [] && v[node].changeTimes == []
    requires rec == v[node].(changeTypes := types, changeTimes := times, changeCount := |types|)
    ensures v[node := rec] == AppendIn(v, node, types, times)
  {
    assert [] + types == types && [] + times == times;
  }

  /**
   * The collapse loop on a node with no changes: each virtual event whose
   * type differs from the last kept one is added, while the path terms are
   * summed; then the closing term.
   */
  method CollapseOnto(nd: SeedbankNode, ch: Chain, ln: real -> real, start: real, startType: int,
                      types: seq<int>, times: seq<real>, top: real)
    returns (logProb: Double)
    requires |types| == |times| && nd.changeTypes == [] && nd.changeTimes == [] && nd.Valid()
    requires nd.height == start && nd.nodeType == startType
    modifies nd
    ensures var c := Collapsed(startType, types, times);
      nd.Record() == old(nd.Record()).(changeTypes := c.0, changeTimes := c.1, changeCount := |c.0|) &&
      logProb == Add(PathTerms(ch, ln, start, startType, c.0, c.1), Finite(Closing(ch, start, startType, c.0, c.1, top)))
  {
    var prevType := startType;
    var prevTime := start;
    logProb := Finite(0.0);
    ghost var kept: (seq<int>, seq<real>) := ([], []);
    var i := 0;
    while i < |types|
      invariant 0 <= i <= |types|
      invariant kept == Collapsed(startType, types[..i], times[..i])
      invariant nd.Record() == old(nd.Record()).(changeTypes := kept.0, changeTimes := kept.1, changeCount := |kept.0|)
      invariant prevType == FinalType(startType, kept.0) && prevTime == PrevTime(start, kept.1)
      invariant logProb == PathTerms(ch, ln, start, startType, kept.0, kept.1)
    {
      CollapsedStep(startType, types, times, i);
      if types[i] != prevType {
        nd.AddChange(types[i], times[i]);
        logProb := Add(logProb, Segment(ch, ln, prevTime, prevType, types[i], times[i]));
        KeptStep(ch, ln, start, startType, kept.0, kept.1, types[i], times[i]);
        kept := (kept.0 + [types[i]], kept.1 + [times[i]]);
        prevType := types[i];
        prevTime := times[i];
      }
      i := i + 1;
    }
    assert types[..i] == types && times[..i] == times;
    assert kept == Collapsed(startType, types, times);
    logProb := Add(logProb, Finite(Holding(ch, prevType, prevTime, top)));
  }

  /** One more kept change extends the path terms by its segment. */
  lemma KeptStep(ch: Chain, ln: real -> real, start: real, startType: int, types: seq<int>, times: seq<real>, ty: int, time: real)
    requires |types| == |times|
    ensures PathTerms(ch, ln, start, startType, types + [ty], times + [time]) ==
      Add(PathTerms(ch, ln, start, startType, types, times),
          Segment(ch, ln, PrevTime(start, times), FinalType(startType, types), ty, time))
  {
    assert (types + [ty])[..|types|] == types;
    assert (times + [time])[..|times|] == times;
  }

  /**
   * retypeBranch on the tree and the optional lambdas and etas; the time
   * draws and the type draws stand for the Randomizer.nextDouble calls of
   * the two loops.
   */
  method RetypeBranch(t: SeedbankTree, lambdas: array?<Double>, etas: array?<int>, ch: Chain, ln: real -> real,
                      node: int, pba: real, nVirt: int, timeDraws: seq<real>, typeDraws: seq<real>)
    returns (r: Result<Double>)
    requires t.Wf() && 0 <= node < |t.nodes|
    requires lambdas != null ==> lambdas.Length == |t.nodes|
    requires etas != null ==> etas.Length == |t.nodes|
    modifies t.nodes[node], lambdas, etas
    ensures t.Wf()
    ensures var s := Sampled(old(t.View()), ch, ln, node, pba, nVirt, timeDraws, typeDraws);
      r == Returned(s) &&
      (s.Ok? && s.value.Path? ==>
         t.View() == Written(old(t.View()), node, s.value) &&
         ParamsOf(lambdas, etas) == RecalcOpt(old(ParamsOf(lambdas, etas)), t.View(), node)) &&
      (!(s.Ok? && s.value.Path?) ==>
         t.View() == old(t.View()) && ParamsOf(lambdas, etas) == old(ParamsOf(lambdas, etas)))
    ensures lambdas == null || etas == null ==>
      (lambdas != null ==> lambdas[..] == old(lambdas[..])) && (etas != null ==> etas[..] == old(etas[..]))
  {
    var d := DraftEvents(t, ch, node, pba, nVirt, timeDraws, typeDraws);
    if d.Stopped? {
      return Returned(d.result);
    }
    ghost var v := t.View();
    var p := t.nodes[node].parent;
    var top := t.nodes[p].height;
    assert v[node].parent == p && v[p].height == top;
    r := WriteAndRecalculate(t, lambdas, etas, ch, ln, node, d.types, d.times, top, pba);
  }

  /** The checks and the two sampling loops of retypeBranch; the tree is only read. */
  method DraftEvents(t: SeedbankTree, ch: Chain, node: int, pba: real, nVirt: int,
                     timeDraws: seq<real>, typeDraws: seq<real>) returns (d: Draft)
    requires t.Wf() && 0 <= node < |t.nodes|
    ensures d == Drafted(t.View(), ch, node, pba, nVirt, timeDraws, typeDraws)
  {
    ghost var v := t.View();
    var n := t.nodes[node];
    assert v[node] == n.Record();
    var p := n.parent;
    if p == -1 {
      return Stopped(Fail(NullPointer));
    }
    var start := n.height;
    var startType := n.nodeType;
    var top := t.nodes[p].height;
    var endType := t.nodes[p].nodeType;
    assert v[p].height == top && v[p].nodeType == endType;
    d := DraftOn(ch, start, startType, top, endType, pba, nVirt, timeDraws, typeDraws);
  }

  /**
   * retypeBranch after the root check, on the values read from the node and
   * its parent: abort on rubbish Pba or a negative event count; the sorted
   * virtual times, then the forward-backward types (abort when a choice
   * falls through).
   */
  function DraftedOn(ch: Chain, start: real, startType: int, top: real, endType: int, pba: real, nVirt: int,
                     timeDraws: seq<real>, typeDraws: seq<real>): (r: Draft)
    ensures r.Stopped? ==> r.result in {Fail(DrawsExhausted), Ok(Aborted)}
    ensures r.Events? ==> |r.types| == |r.times| == nVirt && AllBinary(r.types)
  {
    if Rubbish(pba) || nVirt < 0 then Stopped(Ok(Aborted))
    else if |timeDraws| < nVirt then Stopped(Fail(DrawsExhausted))
    else
      var times := VirtualTimes(timeDraws, nVirt, top - start, start);
      match Forward(ch, startType, endType, nVirt, typeDraws)
      case Fail(e) => Stopped(Fail(e))
      case Ok(None) => Stopped(Ok(Aborted))
      case Ok(Some(types)) => Events(types, times)
  }

  method DraftOn(ch: Chain, start: real, startType: int, top: real, endType: int, pba: real, nVirt: int,
                 timeDraws: seq<real>, typeDraws: seq<real>) returns (d: Draft)
    ensures d == DraftedOn(ch, start, startType, top, endType, pba, nVirt, timeDraws, typeDraws)
  {
    if Rubbish(pba) || nVirt < 0 {
      return Stopped(Ok(Aborted));
    }
    if |timeDraws| < nVirt {
      return Stopped(Fail(DrawsExhausted));
    }
    var times := SampleTimes(timeDraws, nVirt, top - start, start);
    var sampled := SampleTypes(ch, startType, endType, nVirt, typeDraws);
    if sampled.Fail? {
      return Stopped(Fail(sampled.error));
    }
    if sampled.value.None? {
      return Stopped(Ok(Aborted));
    }
    d := Events(sampled.value.value, times);
  }

  /** The write of the collapsed path, recalculateLambda, and the returned probability. */
  method WriteAndRecalculate(t: SeedbankTree, lambdas: array?<Double>, etas: array?<int>, ch: Chain, ln: real -> real,
                             node: int, types: seq<int>, times: seq<real>, top: real, pba: real)
    returns (r: Result<Double>)
    requires t.Wf() && 0 <= node < |t.nodes| && |types| == |times|
    requires lambdas != null ==> lambdas.Length == |t.nodes|
    requires etas != null ==> etas.Length == |t.nodes|
    modifies t.nodes[node], lambdas, etas
    ensures t.Wf()
    ensures var n := old(t.View())[node]; var c := Collapsed(n.nodeType, types, times);
      var path := Path(c.0, c.1, PathProb(ch, ln, n.height, n.nodeType, c.0, c.1, top, pba));
      r == Returned(Ok(path)) && t.View() == Written(old(t.View()), node, path) &&
      ParamsOf(lambdas, etas) == RecalcOpt(old(ParamsOf(lambdas, etas)), t.View(), node)
    ensures lambdas == null || etas == null ==>
      (lambdas != null ==> lambdas[..] == old(lambdas[..])) && (etas != null ==> etas[..] == old(etas[..]))
  {
    var logProb := WritePath(t, ch, ln, node, types, times, top);
    RecalculateLambda(t, lambdas, etas, node);
    r := Ok(Sub(logProb, LogOf(ln, pba)));
  }

  /**
   * The value retypeBranch returns is the probability getBranchTypeProb
   * assigns to the path it wrote, under the same Pba.
   */
  lemma RetypedPathProb(v: seq<NodeRec>, ch: Chain, ln: real -> real, node: int, pba: real, nVirt: int,
                        timeDraws: seq<real>, typeDraws: seq<real>)
    requires Shaped(v) && 0 <= node < |v|
    ensures var s := Sampled(v, ch, ln, node, pba, nVirt, timeDraws, typeDraws);
      s.Ok? && s.value.Path? ==>
        BranchTypeProb(Written(v, node, s.value), ch, ln, node, pba) == Ok(s.value.logProb)
  {
    var d := Drafted(v, ch, node, pba, nVirt, timeDraws, typeDraws);
    var s := Sampled(v, ch, ln, node, pba, nVirt, timeDraws, typeDraws);
    if d.Events? {
      var n := v[node];
      var c := Collapsed(n.nodeType, d.types, d.times);
      assert s == Ok(Path(c.0, c.1, PathProb(ch, ln, n.height, n.nodeType, c.0, c.1, v[n.parent].height, pba)));
      var w := Written(v, node, s.value);
      assert w[n.parent].height == v[n.parent].height;
    }
  }
}
