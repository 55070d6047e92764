// RecolorBranch: retype one branch by uniformization. proposal draws node
// numbers until one is not the root and returns getBranchTypeProb less the
// retype's log probability. proposal2 chooses among the branches whose
// indicator is 1 and retypes until the branch has at least one change,
// giving up with -infinity on a -infinity retype or after 10,000,000
// tries.
//
// The node draws, the indicator draw and the draws of each retyping are
// parameters; running out of them fails with DrawsExhausted.

module RecolorBranches {
  import opened Wrappers
  import opened Doubles
  import opened SeedbankNodes
  import opened SeedbankTrees
  import opened TreeSurgery
  import opened Retype
  import opened RetypeMoves
  import DormancyMovers

  /** The number of retypes after which proposal2 gives up. */
  const MaxTries := 10000000

  /* ---------------------------------------------------------------------
   * proposal.
   */

  /** The node the do-while selection settles on: the first draw that does not land on the root. */
  function FirstNonRoot(v: seq<NodeRec>, picks: seq<nat>): (r: Option<int>)
    requires Shaped(v) && |v| > 0
    ensures r.Some? ==> 0 <= r.value < |v| && v[r.value].parent != -1
    ensures r.Some? ==>
      exists k :: 0 <= k < |picks| && r.value == picks[k] % |v| &&
        forall j :: 0 <= j < k ==> v[picks[j] % |v|].parent == -1
    ensures r.None? <==> forall j :: 0 <= j < |picks| ==> v[picks[j] % |v|].parent == -1
  {
    if |picks| == 0 then None
    else
      var n := picks[0] % |v|;
      if v[n].parent != -1 then Some(n)
      else
        var rest := FirstNonRoot(v, picks[1..]);
        assert forall j :: 1 <= j < |picks| ==> picks[j] == picks[1..][j - 1];
        if rest.Some? then
          ghost var k :| 0 <= k < |picks[1..]| && rest.value == picks[1..][k] % |v| &&
            forall j :: 0 <= j < k ==> v[picks[1..][j] % |v|].parent == -1;
          assert rest.value == picks[k + 1] % |v|;
          rest
        else rest
  }

  /** The selection loop of proposal. */
  method SelectNonRoot(t: SeedbankTree, picks: seq<nat>) returns (node: Option<int>)
    requires t.Wf()
    ensures node == FirstNonRoot(t.View(), picks)
  {
    ghost var v := t.View();
    var n := |t.nodes|;
    var k := 0;
    while k < |picks|
      invariant 0 <= k <= |picks|
      invariant FirstNonRoot(v, picks) == FirstNonRoot(v, picks[k..])
    {
      var candidate := picks[k] % n;
      assert picks[k..][0] == picks[k] && picks[k..][1..] == picks[k + 1..];
      assert v[candidate] == t.nodes[candidate].Record();
      if t.nodes[candidate].parent != -1 {
        return Some(candidate);
      }
      k := k + 1;
    }
    return None;
  }

  /**
   * RecolorBranch.proposal: the selected branch is retyped and the result
   * is getBranchTypeProb before less the retype's value.
   */
  function Recolored(v: seq<NodeRec>, ind: Option<Indicators>, ch: Chain, ln: real -> real, picks: seq<nat>,
                     pba: real, a: Attempt): (r: Move)
    requires Shaped(v) && |v| > 0 && FitsOpt(ind, v)
    ensures Shaped(r.view) && |r.view| == |v| && FitsOpt(r.params, r.view)
    ensures r.result.Fail? ==> r.result.error == DrawsExhausted
    ensures FirstNonRoot(v, picks).None? ==> r == Move(Fail(DrawsExhausted), v, ind)
  {
    match FirstNonRoot(v, picks)
    case None => Move(Fail(DrawsExhausted), v, ind)
    case Some(node) =>
      var before := BranchTypeProb(v, ch, ln, node, pba).value;
      var m := RetypedMove(v, ind, ch, ln, node, pba, a);
      if m.result.Fail? then m else Move(Ok(Sub(before, m.result.value)), m.view, m.params)
  }

  /**
   * RecolorBranch.proposal's value is the log ratio of the selected
   * branch's path probability before and after, as getBranchTypeProb
   * gives them, whenever the retype did not return -infinity.
   */
  lemma RecoloredRatio(v: seq<NodeRec>, ind: Option<Indicators>, ch: Chain, ln: real -> real, picks: seq<nat>,
                       pba: real, a: Attempt)
    requires Shaped(v) && |v| > 0 && FitsOpt(ind, v)
    ensures var r := Recolored(v, ind, ch, ln, picks, pba, a);
      var node := FirstNonRoot(v, picks);
      r.result.Ok? && RetypedMove(v, ind, ch, ln, node.value, pba, a).result != Ok(NegInf) ==>
        BranchTypeProb(v, ch, ln, node.value, pba).Ok? && BranchTypeProb(r.view, ch, ln, node.value, pba).Ok? &&
        r.result.value ==
          Sub(BranchTypeProb(v, ch, ln, node.value, pba).value, BranchTypeProb(r.view, ch, ln, node.value, pba).value)
  {
    var node := FirstNonRoot(v, picks);
    if node.Some? {
      RetypedMoveProb(v, ind, ch, ln, node.value, pba, a);
    }
  }

  /**
   * A retype that returns -infinity does not make proposal return
   * -infinity: the subtraction turns it into +infinity (or NaN when the
   * old probability is -infinity as well), and the tree is unchanged.
   */
  lemma RecoloredAbortIsNotRejected(v: seq<NodeRec>, ind: Option<Indicators>, ch: Chain, ln: real -> real,
                                    picks: seq<nat>, pba: real, a: Attempt)
    requires Shaped(v) && |v| > 0 && FitsOpt(ind, v)
    ensures var r := Recolored(v, ind, ch, ln, picks, pba, a);
      var node := FirstNonRoot(v, picks);
      node.Some? && RetypedMove(v, ind, ch, ln, node.value, pba, a).result == Ok(NegInf) &&
      RetypedMove(v, ind, ch, ln, node.value, pba, a).view == v ==>
        r.result.Ok? && r.result.value != NegInf && r.view == v &&
        (BranchTypeProb(v, ch, ln, node.value, pba).value.Finite? ==> r.result.value == PosInf)
  {
  }

  /** RecolorBranch.proposal changes the selected branch and nothing else. */
  lemma RecoloredIsLocal(v: seq<NodeRec>, ind: Option<Indicators>, ch: Chain, ln: real -> real, picks: seq<nat>,
                         pba: real, a: Attempt)
    requires Shaped(v) && |v| > 0 && FitsOpt(ind, v)
    ensures var r := Recolored(v, ind, ch, ln, picks, pba, a);
      var node := FirstNonRoot(v, picks);
      forall i :: 0 <= i < |v| && (node.None? || i != node.value) ==> r.view[i] == v[i]
  {
    var node := FirstNonRoot(v, picks);
    if node.Some? {
      RetypedMoveIsLocal(v, ind, ch, ln, node.value, pba, a);
    }
  }

  /** RecolorBranch.proposal on the tree. */
  method Proposal(t: SeedbankTree, lambdas: array?<Double>, etas: array?<int>, ch: Chain, ln: real -> real,
                  picks: seq<nat>, pba: real, a: Attempt) returns (r: Result<Double>)
    requires t.Wf()
    requires lambdas != null ==> lambdas.Length == |t.nodes|
    requires etas != null ==> etas.Length == |t.nodes|
    modifies t.nodes, lambdas, etas
    ensures t.Wf()
    ensures Move(r, t.View(), ParamsOf(lambdas, etas)) ==
      Recolored(old(t.View()), old(ParamsOf(lambdas, etas)), ch, ln, picks, pba, a)
  {
    ghost var v, ind := t.View(), ParamsOf(lambdas, etas);
    var node := SelectNonRoot(t, picks);
    if node.None? {
      return Fail(DrawsExhausted);
    }
    var before := GetBranchTypeProb(t, ch, ln, node.value, pba);
    var retyped := RetypeOnce(t, lambdas, etas, ch, ln, node.value, pba, a);
    ghost var m := RetypedMove(v, ind, ch, ln, node.value, pba, a);
    assert Move(retyped, t.View(), ParamsOf(lambdas, etas)) == m;
    if retyped.Fail? {
      return retyped;
    }
    r := Ok(Sub(before.value, retyped.value));
  }

  /* ---------------------------------------------------------------------
   * proposal2.
   */

  /**
   * The do-while of proposal2 from its tries-th round: retype; -infinity
   * on a -infinity retype or at the try limit; again while the branch has
   * no change; otherwise logq less the retype's value.
   */
  function Retried(v: seq<NodeRec>, ind: Indicators, ch: Chain, ln: real -> real, node: int, pba: real, logq: Double,
                   attempts: seq<Attempt>, tries: nat): (r: Move)
    requires Shaped(v) && 0 <= node < |v| && Fits(ind, v)
    ensures Shaped(r.view) && |r.view| == |v| && r.params.Some? && Fits(r.params.value, r.view)
    decreases |attempts|
  {
    if |attempts| == 0 then Move(Fail(DrawsExhausted), v, Some(ind))
    else
      var m := RetypedMove(v, Some(ind), ch, ln, node, pba, attempts[0]);
      if m.result.Fail? then m
      else if m.result.value == NegInf || tries + 1 >= MaxTries then Move(Ok(NegInf), m.view, m.params)
      else if m.view[node].changeCount == 0 then
        Retried(m.view, m.params.value, ch, ln, node, pba, logq, attempts[1..], tries + 1)
      else Move(Ok(Sub(logq, m.result.value)), m.view, m.params)
  }

  /**
   * One round of the do-while of proposal2 on the tree: when it ends the
   * loop (done), its result is the loop's, and a value other than
   * -infinity comes with a change on node's branch and is logq less the
   * probability getBranchTypeProb gives the new branch; otherwise the loop
   * goes on from the new tree. No other branch changes.
   */
  method RetryRound(t: SeedbankTree, lambdas: array<Double>, etas: array<int>, ch: Chain, ln: real -> real,
                    node: int, pba: real, logq: Double, attempts: seq<Attempt>, tries: nat)
    returns (r: Result<Double>, done: bool)
    requires t.Wf() && 0 <= node < |t.nodes| && lambdas.Length == |t.nodes| && etas.Length == |t.nodes|
    requires |attempts| > 0
    modifies t.nodes[node], lambdas, etas
    ensures t.Wf()
    ensures var rest := Retried(t.View(), Indicators(lambdas[..], etas[..]), ch, ln, node, pba, logq,
                                attempts[1..], tries + 1);
      Retried(old(t.View()), Indicators(old(lambdas[..]), old(etas[..])), ch, ln, node, pba, logq, attempts, tries)
      == if done then Move(r, t.View(), Some(Indicators(lambdas[..], etas[..]))) else rest
    ensures done && r.Ok? && r.value != NegInf ==>
      t.View()[node].changeCount > 0 && BranchTypeProb(t.View(), ch, ln, node, pba).Ok? &&
      r.value == Sub(logq, BranchTypeProb(t.View(), ch, ln, node, pba).value)
    ensures forall i :: 0 <= i < |t.nodes| && i != node ==> t.View()[i] == old(t.View())[i]
  {
    ghost var v := t.View();
    ghost var ind := Indicators(lambdas[..], etas[..]);
    var retyped := RetypeOnce(t, lambdas, etas, ch, ln, node, pba, attempts[0]);
    RetypedMoveProb(v, Some(ind), ch, ln, node, pba, attempts[0]);
    RetypedMoveIsLocal(v, Some(ind), ch, ln, node, pba, attempts[0]);
    if retyped.Fail? {
      return retyped, true;
    }
    if retyped.value == NegInf || tries + 1 >= MaxTries {
      return Ok(NegInf), true;
    }
    assert t.View()[node] == t.nodes[node].Record();
    if t.nodes[node].nTypeChanges != 0 {
      assert t.View()[node].Consistent();
      return Ok(Sub(logq, retyped.value)), true;
    }
    return retyped, false;
  }

  /**
   * The retry loop of proposal2 on the tree. Beyond the loop function, it
   * promises what the loop is for: a value other than -infinity comes with
   * a change on node's branch and is logq less the probability
   * getBranchTypeProb gives the new branch; no other branch changes.
   */
  method Retry(t: SeedbankTree, lambdas: array<Double>, etas: array<int>, ch: Chain, ln: real -> real,
               node: int, pba: real, logq: Double, attempts: seq<Attempt>) returns (r: Result<Double>)
    requires t.Wf() && 0 <= node < |t.nodes| && lambdas.Length == |t.nodes| && etas.Length == |t.nodes|
    modifies t.nodes[node], lambdas, etas
    ensures t.Wf()
    ensures Move(r, t.View(), Some(Indicators(lambdas[..], etas[..]))) ==
      Retried(old(t.View()), Indicators(old(lambdas[..]), old(etas[..])), ch, ln, node, pba, logq, attempts, 0)
    ensures r.Ok? && r.value != NegInf ==>
      t.View()[node].changeCount > 0 && BranchTypeProb(t.View(), ch, ln, node, pba).Ok? &&
      r.value == Sub(logq, BranchTypeProb(t.View(), ch, ln, node, pba).value)
    ensures forall i :: 0 <= i < |t.nodes| && i != node ==> t.View()[i] == old(t.View())[i]
  {
    var tries := 0;
    while tries < |attempts|
      invariant 0 <= tries <= |attempts| && t.Wf()
      invariant Retried(old(t.View()), Indicators(old(lambdas[..]), old(etas[..])), ch, ln, node, pba, logq, attempts, 0)
        == Retried(t.View(), Indicators(lambdas[..], etas[..]), ch, ln, node, pba, logq, attempts[tries..], tries)
      invariant forall i :: 0 <= i < |t.nodes| && i != node ==> t.View()[i] == old(t.View())[i]
      decreases |attempts| - tries
    {
      assert attempts[tries..][1..] == attempts[tries + 1..];
      var done;
      r, done := RetryRound(t, lambdas, etas, ch, ln, node, pba, logq, attempts[tries..], tries);
      tries := tries + 1;
      if done {
        return;
      }
    }
    return Fail(DrawsExhausted);
  }

  /**
   * RecolorBranch.proposal2: -infinity when no indicator is 1 or the
   * chosen branch is the root's (the NullPointerException is caught);
   * otherwise a first retype whose value is discarded, then the retry
   * loop against getBranchTypeProb before.
   */
  function Recolored2(v: seq<NodeRec>, ind: Indicators, ch: Chain, ln: real -> real, pick: nat, pba: real,
                      attempts: seq<Attempt>): (r: Move)
    requires Shaped(v) && Fits(ind, v)
    ensures Shaped(r.view) && |r.view| == |v| && r.params.Some? && Fits(r.params.value, r.view)
    ensures DormancyMovers.Chosen(ind.etas, pick).None? ==> r == Move(Ok(NegInf), v, Some(ind))
  {
    match DormancyMovers.Chosen(ind.etas, pick)
    case None => Move(Ok(NegInf), v, Some(ind))
    case Some(index) =>
      var before := BranchTypeProb(v, ch, ln, index, pba);
      if before.Fail? then Move(Ok(NegInf), v, Some(ind))
      else if |attempts| == 0 then Move(Fail(DrawsExhausted), v, Some(ind))
      else FirstThenRetried(v, ind, ch, ln, index, pba, before.value, attempts)
  }

  /** The part of proposal2 after `before`: a first retype whose value is discarded, then the retry loop. */
  function FirstThenRetried(v: seq<NodeRec>, ind: Indicators, ch: Chain, ln: real -> real, index: int, pba: real,
                            before: Double, attempts: seq<Attempt>): (r: Move)
    requires Shaped(v) && Fits(ind, v) && 0 <= index < |v| && |attempts| > 0
    ensures Shaped(r.view) && |r.view| == |v| && r.params.Some? && Fits(r.params.value, r.view)
  {
    var first := RetypedMove(v, Some(ind), ch, ln, index, pba, attempts[0]);
    if first.result.Fail? then first
    else Retried(first.view, first.params.value, ch, ln, index, pba, before, attempts[1..], 0)
  }

  /**
   * The retypes of proposal2 on the tree: a value other than -infinity
   * comes with a change on index's branch and is `before` less the
   * probability getBranchTypeProb gives the new branch; no other branch
   * changes.
   */
  method RetypeThenRetry(t: SeedbankTree, lambdas: array<Double>, etas: array<int>, ch: Chain, ln: real -> real,
                         index: int, pba: real, before: Double, attempts: seq<Attempt>) returns (r: Result<Double>)
    requires t.Wf() && 0 <= index < |t.nodes| && lambdas.Length == |t.nodes| && etas.Length == |t.nodes|
    requires |attempts| > 0
    modifies t.nodes[index], lambdas, etas
    ensures t.Wf()
    ensures Move(r, t.View(), Some(Indicators(lambdas[..], etas[..]))) ==
      FirstThenRetried(old(t.View()), Indicators(old(lambdas[..]), old(etas[..])), ch, ln, index, pba, before, attempts)
    ensures r.Ok? && r.value != NegInf ==>
      t.View()[index].changeCount > 0 && BranchTypeProb(t.View(), ch, ln, index, pba).Ok? &&
      r.value == Sub(before, BranchTypeProb(t.View(), ch, ln, index, pba).value)
    ensures forall i :: 0 <= i < |t.nodes| && i != index ==> t.View()[i] == old(t.View())[i]
  {
    ghost var v := t.View();
    ghost var ind := Indicators(lambdas[..], etas[..]);
    var first := RetypeOnce(t, lambdas, etas, ch, ln, index, pba, attempts[0]);
    RetypedMoveIsLocal(v, Some(ind), ch, ln, index, pba, attempts[0]);
    if first.Fail? {
      return first;
    }
    r := Retry(t, lambdas, etas, ch, ln, index, pba, before, attempts[1..]);
  }

  /**
   * RecolorBranch.proposal2 on the tree and the parameters. A value other
   * than -infinity comes from a branch with indicator 1 that now has a
   * change, and is the log ratio of its path probability before and
   * after; no other branch changes.
   */
  method Proposal2(t: SeedbankTree, lambdas: array<Double>, etas: array<int>, ch: Chain, ln: real -> real,
                   pick: nat, pba: real, attempts: seq<Attempt>) returns (r: Result<Double>)
    requires t.Wf() && lambdas.Length == |t.nodes| && etas.Length == |t.nodes|
    modifies t.nodes, lambdas, etas
    ensures t.Wf()
    ensures Move(r, t.View(), Some(Indicators(lambdas[..], etas[..]))) ==
      Recolored2(old(t.View()), Indicators(old(lambdas[..]), old(etas[..])), ch, ln, pick, pba, attempts)
    ensures var c := DormancyMovers.Chosen(old(etas[..]), pick);
      r.Ok? && r.value != NegInf ==>
        c.Some? && old(etas[..])[c.value] == 1 && t.View()[c.value].changeCount > 0 &&
        BranchTypeProb(old(t.View()), ch, ln, c.value, pba).Ok? && BranchTypeProb(t.View(), ch, ln, c.value, pba).Ok? &&
        r.value == Sub(BranchTypeProb(old(t.View()), ch, ln, c.value, pba).value,
                       BranchTypeProb(t.View(), ch, ln, c.value, pba).value)
    ensures var c := DormancyMovers.Chosen(old(etas[..]), pick);
      forall i :: 0 <= i < |t.nodes| && (c.None? || i != c.value) ==> t.View()[i] == old(t.View())[i]
  {
    var c := DormancyMovers.Choose(etas[..], pick);
    if c.None? {
      return Ok(NegInf);
    }
    var index := c.value;
    var before := GetBranchTypeProb(t, ch, ln, index, pba);
    if before.Fail? {
      return Ok(NegInf);
    }
    if |attempts| == 0 {
      return Fail(DrawsExhausted);
    }
    r := RetypeThenRetry(t, lambdas, etas, ch, ln, index, pba, before.value, attempts);
  }
}
