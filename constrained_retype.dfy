// constrainedRetypeBranch of the uniformization retype operator: the
// forward-backward types on the branch are sampled as in retypeBranch, but
// only their number of dormant periods is kept. The branch is then rebuilt
// as that many dormant stretches, whose lengths are cut from the branch
// length times the node's lambda, alternating with the active stretches
// that share out the rest.

module ConstrainedRetype {
  import opened Wrappers
  import opened Doubles
  import opened Sorting
  import opened SeedbankNodes
  import opened SeedbankTrees
  import opened TreeSurgery
  import opened Retype

  /* ---------------------------------------------------------------------
   * Counting the dormant periods.
   */

  /** The number of changes from 0 to 1 along `types`, starting in `start`. */
  function DormantRuns(start: int, types: seq<int>): (r: nat)
    ensures r <= |types|
    decreases |types|
  {
    if |types| == 0 then 0
    else
      var n := |types| - 1;
      DormantRuns(start, types[..n]) + (if types[n] == 1 && FinalType(start, types[..n]) == 0 then 1 else 0)
  }

  /** The counting loop over the sampled types. */
  method CountDormant(start: int, types: seq<int>) returns (numDormant: nat)
    ensures numDormant == DormantRuns(start, types)
  {
    var lastType := start;
    numDormant := 0;
    var i := 0;
    while i < |types|
      invariant 0 <= i <= |types|
      invariant numDormant == DormantRuns(start, types[..i])
      invariant lastType == FinalType(start, types[..i])
    {
      assert types[..i + 1][..i] == types[..i];
      if types[i] == 1 && lastType == 0 {
        numDormant := numDormant + 1;
      }
      lastType := types[i];
      i := i + 1;
    }
    assert types[..i] == types;
  }

  /* ---------------------------------------------------------------------
   * Cutting a length at sorted breaks.
   */

  /** The sum of a sequence of lengths, in order. */
  function Sum(s: seq<real>): real
    decreases |s|
  {
    if |s| == 0 then 0.0 else Sum(s[..|s| - 1]) + s[|s| - 1]
  }

  /**
   * The stretches `total` is cut into by the breaks: each break scaled by
   * `total`, less the previous scaled break; then what is left.
   */
  function Stretches(total: real, breaks: seq<real>): (r: seq<real>)
    ensures |r| == |breaks| + 1
  {
    seq(|breaks| + 1, i requires 0 <= i <= |breaks| =>
      (if i < |breaks| then Scaled(breaks[i], total) else total) - (if i == 0 then 0.0 else Scaled(breaks[i - 1], total)))
  }

  /** The loop that fills the stretch lengths, keeping the last scaled break. */
  method CutStretches(total: real, breaks: seq<real>) returns (lengths: seq<real>)
    ensures lengths == Stretches(total, breaks)
  {
    var lastBreak := 0.0;
    lengths := [];
    var i := 0;
    while i < |breaks|
      invariant 0 <= i <= |breaks|
      invariant lengths == Stretches(total, breaks)[..i]
      invariant lastBreak == if i == 0 then 0.0 else Scaled(breaks[i - 1], total)
    {
      lengths := lengths + [Scaled(breaks[i], total) - lastBreak];
      lastBreak := Scaled(breaks[i], total);
      i := i + 1;
    }
    lengths := lengths + [total - lastBreak];
  }

  /** The first k stretches reach the k-th scaled break. */
  lemma {:induction false} StretchesPrefix(total: real, breaks: seq<real>, k: nat)
    requires k <= |breaks|
    ensures Sum(Stretches(total, breaks)[..k]) == if k == 0 then 0.0 else Scaled(breaks[k - 1], total)
  {
    if k > 0 {
      var s := Stretches(total, breaks);
      StretchesPrefix(total, breaks, k - 1);
      assert s[..k][..k - 1] == s[..k - 1];
    }
  }

  /** The stretches telescope to the whole length. */
  lemma StretchesSum(total: real, breaks: seq<real>)
    ensures Sum(Stretches(total, breaks)) == total
  {
    var s := Stretches(total, breaks);
    StretchesPrefix(total, breaks, |breaks|);
    assert s[..|s| - 1] == s[..|breaks|];
  }

  /** A larger draw scales a non-negative length to no less. */
  lemma ScaledMonotone(u1: real, u2: real, total: real)
    requires u1 <= u2 && total >= 0.0
    ensures Scaled(u1, total) <= Scaled(u2, total)
  {
    assert Scaled(u2, total) - Scaled(u1, total) == (u2 - u1) * total;
  }

  /** Stretch i is non-negative when the breaks around it are in order within [0, 1]. */
  lemma StretchNonNegative(total: real, breaks: seq<real>, i: nat)
    requires total >= 0.0 && i <= |breaks|
    requires i < |breaks| ==> 0.0 <= breaks[i]
    requires 0 < i ==> breaks[i - 1] <= 1.0
    requires 0 < i < |breaks| ==> breaks[i - 1] <= breaks[i]
    ensures Stretches(total, breaks)[i] >= 0.0
  {
    if i == 0 {
      if i < |breaks| {
        ScaledMonotone(0.0, breaks[0], total);
      }
    } else if i < |breaks| {
      ScaledMonotone(breaks[i - 1], breaks[i], total);
    } else {
      ScaledMonotone(breaks[i - 1], 1.0, total);
    }
  }

  /** Sorted breaks in [0, 1) cut a non-negative length into non-negative stretches. */
  lemma StretchesNonNegative(total: real, breaks: seq<real>)
    requires total >= 0.0 && Ascending(breaks)
    requires forall i :: 0 <= i < |breaks| ==> 0.0 <= breaks[i] < 1.0
    ensures forall i :: 0 <= i < |Stretches(total, breaks)| ==> Stretches(total, breaks)[i] >= 0.0
  {
    forall i | 0 <= i < |breaks| + 1 ensures Stretches(total, breaks)[i] >= 0.0 {
      if 0 < i < |breaks| {
        assert breaks[i - 1] <= breaks[i - 1 + 1];
      }
      StretchNonNegative(total, breaks, i);
    }
  }

  /* ---------------------------------------------------------------------
   * Interleaving dormant and active stretches.
   */

  /**
   * The first i pairs of stretches along the branch: with a dormant start
   * type each pair is a dormant stretch then an active one, with an active
   * start type the other way round.
   */
  function Paired(startType: int, dormant: seq<real>, active: seq<real>, i: nat): (r: seq<real>)
    requires i <= |dormant| && i <= |active|
    ensures |r| == 2 * i
  {
    if i == 0 then []
    else
      Paired(startType, dormant, active, i - 1) +
        (if startType == 0 then [dormant[i - 1], active[i - 1]] else [active[i - 1], dormant[i - 1]])
  }

  /** All the stretches along the branch: the pairs, then the last active one for an active start. */
  function Interleaved(startType: int, dormant: seq<real>, active: seq<real>): (r: seq<real>)
    requires startType == 0 || startType == 1
    requires |active| == |dormant| + startType
    ensures |r| == |dormant| + |active|
  {
    Paired(startType, dormant, active, |dormant|) + (if startType == 1 then [active[|dormant|]] else [])
  }

  /** The combining loop: pairs of stretches, then the last active one for an active start. */
  method Interleave(startType: int, dormant: seq<real>, active: seq<real>) returns (lengths: seq<real>)
    requires startType == 0 || startType == 1
    requires |active| == |dormant| + startType
    ensures lengths == Interleaved(startType, dormant, active)
  {
    lengths := [];
    var i := 0;
    while i < |dormant|
      invariant 0 <= i <= |dormant|
      invariant lengths == Paired(startType, dormant, active, i)
    {
      var first := if startType == 0 then dormant[i] else active[i];
      var second := if startType == 0 then active[i] else dormant[i];
      lengths := lengths + [first, second];
      i := i + 1;
    }
    if startType == 1 {
      lengths := lengths + [active[|active| - 1]];
    }
  }

  /** Appending one length adds it to the sum. */
  lemma SumAppend(s: seq<real>, x: real)
    ensures Sum(s + [x]) == Sum(s) + x
  {
    assert (s + [x])[..|s|] == s;
  }

  /** One more length of a sequence adds it to the sum of the prefix. */
  lemma SumStep(s: seq<real>, n: nat)
    requires n < |s|
    ensures Sum(s[..n + 1]) == Sum(s[..n]) + s[n]
  {
    assert s[..n + 1] == s[..n] + [s[n]];
    SumAppend(s[..n], s[n]);
  }

  /** The first i pairs sum to the first i dormant and the first i active stretches. */
  lemma {:induction false} PairedSum(startType: int, dormant: seq<real>, active: seq<real>, i: nat)
    requires i <= |dormant| && i <= |active|
    ensures Sum(Paired(startType, dormant, active, i)) == Sum(dormant[..i]) + Sum(active[..i])
  {
    if i > 0 {
      var p := Paired(startType, dormant, active, i - 1);
      var x := if startType == 0 then dormant[i - 1] else active[i - 1];
      var y := if startType == 0 then active[i - 1] else dormant[i - 1];
      assert Paired(startType, dormant, active, i) == (p + [x]) + [y];
      SumAppend(p + [x], y);
      SumAppend(p, x);
      SumStep(dormant, i - 1);
      SumStep(active, i - 1);
      PairedSum(startType, dormant, active, i - 1);
    }
  }

  /** All the interleaved stretches sum to the dormant total plus the active total. */
  lemma InterleavedSum(startType: int, dormant: seq<real>, active: seq<real>)
    requires startType == 0 || startType == 1
    requires |active| == |dormant| + startType
    ensures Sum(Interleaved(startType, dormant, active)) == Sum(dormant) + Sum(active)
  {
    var n := |dormant|;
    PairedSum(startType, dormant, active, n);
    assert dormant[..n] == dormant;
    if startType == 1 {
      SumAppend(Paired(startType, dormant, active, n), active[n]);
      SumStep(active, n);
      assert active[..n + 1] == active;
    } else {
      assert active[..n] == active;
      assert Interleaved(startType, dormant, active) == Paired(startType, dormant, active, n);
    }
  }

  /** Pair j of the stretches sits at places 2j and 2j + 1. */
  lemma {:induction false} PairedAt(startType: int, dormant: seq<real>, active: seq<real>, i: nat, j: nat)
    requires i <= |dormant| && i <= |active| && j < i
    ensures Paired(startType, dormant, active, i)[2 * j] == (if startType == 0 then dormant[j] else active[j])
    ensures Paired(startType, dormant, active, i)[2 * j + 1] == (if startType == 0 then active[j] else dormant[j])
  {
    if j < i - 1 {
      PairedAt(startType, dormant, active, i - 1, j);
    }
  }

  /** Place j of the stretches holds a dormant one. */
  predicate DormantPlace(startType: int, j: int)
  {
    (j % 2 == 0) == (startType == 0)
  }

  /** The stretches at the dormant places among the first m, summed. */
  function DormantSum(startType: int, lengths: seq<real>, m: nat): real
    requires m <= |lengths|
  {
    if m == 0 then 0.0
    else DormantSum(startType, lengths, m - 1) + (if DormantPlace(startType, m - 1) then lengths[m - 1] else 0.0)
  }

  /** How many of the first m places are dormant ones. */
  function DormantPlaces(startType: int, m: nat): (r: nat)
    ensures r <= m
  {
    if m == 0 then 0 else DormantPlaces(startType, m - 1) + (if DormantPlace(startType, m - 1) then 1 else 0)
  }

  /** Each pair of places holds one dormant stretch: the dormant one of the pair. */
  lemma {:induction false} DormantPairs(startType: int, dormant: seq<real>, active: seq<real>, j: nat)
    requires startType == 0 || startType == 1
    requires |active| == |dormant| + startType && j <= |dormant|
    ensures DormantSum(startType, Interleaved(startType, dormant, active), 2 * j) == Sum(dormant[..j])
    ensures DormantPlaces(startType, 2 * j) == j
  {
    if j > 0 {
      var l := Interleaved(startType, dormant, active);
      var n := |dormant|;
      PairedAt(startType, dormant, active, n, j - 1);
      assert l[2 * (j - 1)] == Paired(startType, dormant, active, n)[2 * (j - 1)];
      assert l[2 * (j - 1) + 1] == Paired(startType, dormant, active, n)[2 * (j - 1) + 1];
      assert DormantPlace(startType, 2 * (j - 1)) == (startType == 0);
      assert DormantPlace(startType, 2 * (j - 1) + 1) == (startType == 1);
      SumStep(dormant, j - 1);
      DormantPairs(startType, dormant, active, j - 1);
    }
  }

  /**
   * The places before the last one hold every dormant stretch: the last
   * place is the last active stretch.
   */
  lemma DormantBeforeLast(startType: int, dormant: seq<real>, active: seq<real>)
    requires startType == 0 || startType == 1
    requires |active| == |dormant| + startType && |dormant| >= 1
    ensures var l := Interleaved(startType, dormant, active);
      DormantSum(startType, l, |l| - 1) == Sum(dormant) && DormantPlaces(startType, |l| - 1) == |dormant|
  {
    var l := Interleaved(startType, dormant, active);
    var n := |dormant|;
    assert dormant[..n] == dormant;
    if startType == 0 {
      DormantPairs(startType, dormant, active, n - 1);
      PairedAt(startType, dormant, active, n, n - 1);
      assert l[2 * (n - 1)] == Paired(startType, dormant, active, n)[2 * (n - 1)];
      assert DormantPlace(startType, 2 * (n - 1));
      SumStep(dormant, n - 1);
    } else {
      DormantPairs(startType, dormant, active, n);
    }
  }

  /* ---------------------------------------------------------------------
   * The rebuilt branch: flipping changes laid end to end.
   */

  /** The other of the two types. */
  function Other(ty: int): int
  {
    1 - ty
  }

  /** The time a stretch after `time`. */
  function After(time: real, stretch: real): real
  {
    time + stretch
  }

  /** n changes from startType, each to the other type than the last. */
  function Flips(startType: int, n: nat): (r: seq<int>)
    ensures |r| == n
  {
    if n == 0 then [] else var p := Flips(startType, n - 1); p + [Other(FinalType(startType, p))]
  }

  /** The times of the first n changes when the stretches are laid end to end from `start`. */
  function Arrivals(start: real, lengths: seq<real>, n: nat): (r: seq<real>)
    requires n <= |lengths|
    ensures |r| == n
  {
    if n == 0 then [] else var p := Arrivals(start, lengths, n - 1); p + [After(PrevTime(start, p), lengths[n - 1])]
  }

  /** The loop's next change extends the flips. */
  lemma FlipsNext(startType: int, types: seq<int>, n: nat)
    requires types == Flips(startType, n)
    ensures types + [Other(FinalType(startType, types))] == Flips(startType, n + 1)
  {
  }

  /** The loop's next time extends the arrivals. */
  lemma ArrivalsNext(start: real, lengths: seq<real>, times: seq<real>, n: nat)
    requires n < |lengths| && times == Arrivals(start, lengths, n)
    ensures times + [After(PrevTime(start, times), lengths[n])] == Arrivals(start, lengths, n + 1)
  {
  }

  /** After n flips the type is the start type for even n and the other one for odd n. */
  lemma {:induction false} FlipsEnd(startType: int, n: nat)
    ensures FinalType(startType, Flips(startType, n)) == if n % 2 == 0 then startType else 1 - startType
  {
    if n > 0 {
      FlipsEnd(startType, n - 1);
    }
  }

  /** A prefix of the flips is the shorter flip sequence. */
  lemma {:induction false} FlipsPrefix(startType: int, n: nat, m: nat)
    requires m <= n
    ensures Flips(startType, n)[..m] == Flips(startType, m)
    decreases n
  {
    if m < n {
      var p := Flips(startType, n - 1);
      assert Flips(startType, n)[..m] == p[..m];
      FlipsPrefix(startType, n - 1, m);
    }
  }

  /** The flip at place i is a change to 1 exactly at a dormant place. */
  lemma FlipAt(startType: int, n: nat, i: nat)
    requires startType == 0 || startType == 1
    requires i < n
    ensures Flips(startType, n)[i] == if DormantPlace(startType, i) then 1 else 0
  {
    FlipsPrefix(startType, n, i + 1);
    FlipsEnd(startType, i);
    assert Flips(startType, n)[i] == Flips(startType, i + 1)[i];
  }

  /** Flips from a binary type are binary, never repeat a type, and the first one leaves the start type. */
  lemma {:induction false} FlipsAlternate(startType: int, n: nat)
    requires startType == 0 || startType == 1
    ensures AllBinary(Flips(startType, n)) && Alternating(startType, Flips(startType, n))
  {
    if n > 0 {
      var p := Flips(startType, n - 1);
      var f := Flips(startType, n);
      FlipsAlternate(startType, n - 1);
      FlipsEnd(startType, n - 1);
      assert f[n - 1] == Other(FinalType(startType, p));
      assert forall i :: 0 <= i < n - 1 ==> f[i] == p[i];
    }
  }

  /** One more change adds its stretch to the dormant time when it is a change to 1. */
  lemma CreditedStep(start: real, types: seq<int>, times: seq<real>, ty: int, time: real)
    requires |types| == |times|
    ensures ChangeCredited(1, start, types + [ty], times + [time]) ==
      ChangeCredited(1, start, types, times) + (if ty == 1 then time - PrevTime(start, times) else 0.0)
  {
    assert (types + [ty])[..|types|] == types;
    assert (times + [time])[..|times|] == times;
  }

  /**
   * The dormant time recalculateLambda finds on m flips laid end to end:
   * the stretches that end in a change to 1, which are those at the
   * dormant places.
   */
  lemma {:induction false} FlipsCredited(startType: int, start: real, lengths: seq<real>, m: nat)
    requires startType == 0 || startType == 1
    requires m <= |lengths|
    ensures ChangeCredited(1, start, Flips(startType, m), Arrivals(start, lengths, m)) == DormantSum(startType, lengths, m)
  {
    if m > 0 {
      var p := Flips(startType, m - 1);
      var q := Arrivals(start, lengths, m - 1);
      var x := Other(FinalType(startType, p));
      CreditedStep(start, p, q, x, After(PrevTime(start, q), lengths[m - 1]));
      FlipsEnd(startType, m - 1);
      FlipsCredited(startType, start, lengths, m - 1);
    }
  }

  /** Types that are a change to 1 at each dormant place and to 0 at every other place. */
  predicate Placed(startType: int, types: seq<int>)
  {
    forall j :: 0 <= j < |types| ==> types[j] == if DormantPlace(startType, j) then 1 else 0
  }

  /** Placed types from a binary type change from 0 to 1 once per dormant place. */
  lemma {:induction false} PlacedRuns(startType: int, types: seq<int>)
    requires startType == 0 || startType == 1
    requires Placed(startType, types)
    ensures DormantRuns(startType, types) == DormantPlaces(startType, |types|)
    decreases |types|
  {
    if |types| > 0 {
      var n := |types| - 1;
      var p := types[..n];
      assert Placed(startType, p) by {
        forall j | 0 <= j < |p| ensures p[j] == if DormantPlace(startType, j) then 1 else 0 {
          assert p[j] == types[j];
        }
      }
      assert (types[n] == 1 && FinalType(startType, p) == 0) == DormantPlace(startType, n) by {
        if n > 0 {
          assert FinalType(startType, p) == types[n - 1];
        }
      }
      PlacedRuns(startType, p);
    }
  }

  /** The flips from a binary type change from 0 to 1 once per dormant place. */
  lemma FlipsRuns(startType: int, m: nat)
    requires startType == 0 || startType == 1
    ensures DormantRuns(startType, Flips(startType, m)) == DormantPlaces(startType, m)
  {
    forall i | 0 <= i < m ensures Flips(startType, m)[i] == if DormantPlace(startType, i) then 1 else 0 {
      FlipAt(startType, m, i);
    }
    PlacedRuns(startType, Flips(startType, m));
  }

  /** The last of n arrivals is the start plus the first n stretches. */
  lemma {:induction false} ArrivalsReach(start: real, lengths: seq<real>, n: nat)
    requires n <= |lengths|
    ensures PrevTime(start, Arrivals(start, lengths, n)) == start + Sum(lengths[..n])
  {
    if n > 0 {
      SumStep(lengths, n - 1);
      ArrivalsReach(start, lengths, n - 1);
    } else {
      assert lengths[..0] == [];
    }
  }

  /** Non-negative stretches arrive in order, no earlier than the start. */
  lemma {:induction false} ArrivalsAscend(start: real, lengths: seq<real>, n: nat)
    requires n <= |lengths| && forall i :: 0 <= i < |lengths| ==> lengths[i] >= 0.0
    ensures Ascending([start] + Arrivals(start, lengths, n))
  {
    if n > 0 {
      var p := Arrivals(start, lengths, n - 1);
      ArrivalsAscend(start, lengths, n - 1);
      assert [start] + Arrivals(start, lengths, n) == ([start] + p) + [After(PrevTime(start, p), lengths[n - 1])];
    }
  }

  /* ---------------------------------------------------------------------
   * constrainedRetypeBranch.
   */

  /** What the checks and the sampling leave: an early result, or the stretch lengths. */
  datatype Layout = Halted(result: Result<Path>) | Laid(lengths: seq<real>)

  /** The early results of constrainedRetypeBranch: an aborted move, too few draws, or a missing input. */
  predicate EarlyEnd(res: Result<Path>)
  {
    res == Ok(Aborted) || res == Fail(DrawsExhausted) || res == Fail(NullPointer)
  }

  /**
   * constrainedRetypeBranch after the root check, on the values read from
   * the node, its parent and the lambdas parameter (None when it is
   * absent): abort on rubbish Pba, a negative event count, a failed
   * forward-backward choice or no dormant period; otherwise the dormant
   * stretches cut from len times lambda and the active ones from the
   * rest, interleaved.
   */
  function LaidOut(ch: Chain, start: real, startType: int, top: real, endType: int, lam: Option<real>, pba: real,
                   nVirt: int, typeDraws: seq<real>, dormantDraws: seq<real>, activeDraws: seq<real>): (r: Layout)
    requires startType == 0 || startType == 1
    ensures r.Halted? ==> EarlyEnd(r.result)
    ensures r.Laid? ==> |r.lengths| >= 1
  {
    if Rubbish(pba) || nVirt < 0 then Halted(Ok(Aborted))
    else
      match Forward(ch, startType, endType, nVirt, typeDraws)
      case Fail(e) => Halted(Fail(e))
      case Ok(None) => Halted(Ok(Aborted))
      case Ok(Some(types)) => CutFrom(startType, types, top - start, lam, dormantDraws, activeDraws)
  }

  /**
   * The rest of constrainedRetypeBranch on the sampled types: abort when
   * there is no dormant period; otherwise the lengths Split cuts.
   */
  function CutFrom(startType: int, types: seq<int>, len: real, lam: Option<real>,
                   dormantDraws: seq<real>, activeDraws: seq<real>): (r: Layout)
    requires startType == 0 || startType == 1
  {
    var numDormant := DormantRuns(startType, types);
    if numDormant == 0 then Halted(Ok(Aborted))
    else Split(startType, numDormant, len, lam, dormantDraws, activeDraws)
  }

  /**
   * The breaks are drawn and sorted, the numDormant dormant stretches cut
   * from len times lambda, the active ones (one more when the branch
   * starts active) from the rest, and the two interleaved; too few draws
   * and an absent lambda fail.
   */
  function Split(startType: int, numDormant: nat, len: real, lam: Option<real>,
                 dormantDraws: seq<real>, activeDraws: seq<real>): (r: Layout)
    requires startType == 0 || startType == 1
    requires numDormant >= 1
    ensures r.Halted? ==> r.result == Fail(DrawsExhausted) || r.result == Fail(NullPointer)
    ensures r.Laid? ==> |r.lengths| == 2 * numDormant + startType
  {
    var numActive := numDormant + startType;
    if |dormantDraws| < numDormant - 1 then Halted(Fail(DrawsExhausted))
    else if lam.None? then Halted(Fail(NullPointer))
    else if |activeDraws| < numActive - 1 then Halted(Fail(DrawsExhausted))
    else Laid(Cut(startType, len, Scaled(lam.value, len), dormantDraws[..numDormant - 1], activeDraws[..numActive - 1]))
  }

  /**
   * The dormant stretches cut from dormantLen at the sorted dormant draws,
   * the active ones from the rest of len at the sorted active draws,
   * interleaved.
   */
  function Cut(startType: int, len: real, dormantLen: real, dormantDraws: seq<real>, activeDraws: seq<real>): (r: seq<real>)
    requires startType == 0 || startType == 1
    requires |activeDraws| == |dormantDraws| + startType
    ensures |r| == 2 * |dormantDraws| + startType + 2
  {
    var dormant := Stretches(dormantLen, SortReals(dormantDraws));
    var active := Stretches(len - dormantLen, SortReals(activeDraws));
    Interleaved(startType, dormant, active)
  }

  /** The lambda constrainedRetypeBranch reads for node, when the parameter is present. */
  function LambdaIn(lambdas: array?<Double>, node: int): Option<real>
    reads lambdas
    requires lambdas != null ==> 0 <= node < lambdas.Length && lambdas[node].Finite?
  {
    if lambdas == null then None else Some(lambdas[node].v)
  }

  /** constrainedRetypeBranch up to the write: a NullPointerException for the root, then LaidOut. */
  function Laying(v: seq<NodeRec>, ch: Chain, lam: Option<real>, node: int, pba: real, nVirt: int,
                  typeDraws: seq<real>, dormantDraws: seq<real>, activeDraws: seq<real>): (r: Layout)
    requires Shaped(v) && 0 <= node < |v| && (v[node].nodeType == 0 || v[node].nodeType == 1)
    ensures r.Halted? ==> EarlyEnd(r.result)
    ensures r.Laid? ==> v[node].parent != -1 && |r.lengths| >= 1
  {
    var p := v[node].parent;
    if p == -1 then Halted(Fail(NullPointer))
    else
      LaidOut(ch, v[node].height, v[node].nodeType, v[p].height, v[p].nodeType, lam, pba, nVirt,
              typeDraws, dormantDraws, activeDraws)
  }

  /**
   * What a layout makes of the branch above node: the early result, or all
   * but the last stretch laid end to end from the node as flipping
   * changes, with their path probability.
   */
  function LaidPath(v: seq<NodeRec>, ch: Chain, ln: real -> real, node: int, pba: real, d: Layout): (r: Result<Path>)
    requires Shaped(v) && 0 <= node < |v|
    requires d.Laid? ==> v[node].parent != -1 && |d.lengths| >= 1
    ensures d.Laid? ==> r.Ok? && r.value.Path? && |r.value.types| == |r.value.times|
  {
    match d
    case Halted(res) => res
    case Laid(lengths) =>
      var n := v[node];
      var k := |lengths| - 1;
      var types := Flips(n.nodeType, k);
      var times := Arrivals(n.height, lengths, k);
      Ok(Path(types, times, PathProb(ch, ln, n.height, n.nodeType, types, times, v[n.parent].height, pba)))
  }

  /** constrainedRetypeBranch up to the write: the outcome of its layout. */
  function Constrained(v: seq<NodeRec>, ch: Chain, ln: real -> real, lam: Option<real>, node: int, pba: real,
                       nVirt: int, typeDraws: seq<real>, dormantDraws: seq<real>, activeDraws: seq<real>): (r: Result<Path>)
    requires Shaped(v) && 0 <= node < |v| && (v[node].nodeType == 0 || v[node].nodeType == 1)
    ensures r.Ok? && r.value.Path? ==> |r.value.types| == |r.value.times|
  {
    LaidPath(v, ch, ln, node, pba, Laying(v, ch, lam, node, pba, nVirt, typeDraws, dormantDraws, activeDraws))
  }

  /**
   * constrainedRetypeBranch on the tree and the optional lambdas and etas;
   * the type draws and the two break draws stand for the
   * Randomizer.nextDouble calls of the forward-backward loop and the two
   * break loops.
   */
  method ConstrainedRetypeBranch(t: SeedbankTree, lambdas: array?<Double>, etas: array?<int>, ch: Chain,
                                 ln: real -> real, node: int, pba: real, nVirt: int,
                                 typeDraws: seq<real>, dormantDraws: seq<real>, activeDraws: seq<real>)
    returns (r: Result<Double>)
    requires t.Wf() && 0 <= node < |t.nodes|
    requires t.View()[node].nodeType == 0 || t.View()[node].nodeType == 1
    requires lambdas != null ==> lambdas.Length == |t.nodes| && lambdas[node].Finite?
    requires etas != null ==> etas.Length == |t.nodes|
    modifies t.nodes[node], lambdas, etas
    ensures t.Wf()
    ensures var s := Constrained(old(t.View()), ch, ln, old(LambdaIn(lambdas, node)), node, pba, nVirt,
                                 typeDraws, dormantDraws, activeDraws);
      r == Returned(s) &&
      (s.Ok? && s.value.Path? ==>
         t.View() == Written(old(t.View()), node, s.value) &&
         ParamsOf(lambdas, etas) == RecalcOpt(old(ParamsOf(lambdas, etas)), t.View(), node)) &&
      (!(s.Ok? && s.value.Path?) ==>
         t.View() == old(t.View()) && ParamsOf(lambdas, etas) == old(ParamsOf(lambdas, etas)))
    ensures lambdas == null || etas == null ==>
      (lambdas != null ==> lambdas[..] == old(lambdas[..])) && (etas != null ==> etas[..] == old(etas[..]))
  {
    ghost var v := t.View();
    ghost var lam := LambdaIn(lambdas, node);
    var d := LayBranch(t, lambdas, ch, node, pba, nVirt, typeDraws, dormantDraws, activeDraws);
    ghost var s := LaidPath(v, ch, ln, node, pba, d);
    assert s == Constrained(v, ch, ln, lam, node, pba, nVirt, typeDraws, dormantDraws, activeDraws);
    r := Conclude(t, lambdas, etas, ch, ln, node, pba, d);
  }

  /** The end of constrainedRetypeBranch on its layout: the early result, or the write and recalculateLambda. */
  method Conclude(t: SeedbankTree, lambdas: array?<Double>, etas: array?<int>, ch: Chain, ln: real -> real,
                  node: int, pba: real, d: Layout)
    returns (r: Result<Double>)
    requires t.Wf() && 0 <= node < |t.nodes|
    requires d.Laid? ==> t.View()[node].parent != -1 && |d.lengths| >= 1
    requires d.Halted? ==> EarlyEnd(d.result)
    requires lambdas != null ==> lambdas.Length == |t.nodes|
    requires etas != null ==> etas.Length == |t.nodes|
    modifies t.nodes[node], lambdas, etas
    ensures t.Wf()
    ensures var s := LaidPath(old(t.View()), ch, ln, node, pba, d);
      r == Returned(s) &&
      (s.Ok? && s.value.Path? ==>
         t.View() == Written(old(t.View()), node, s.value) &&
         ParamsOf(lambdas, etas) == RecalcOpt(old(ParamsOf(lambdas, etas)), t.View(), node)) &&
      (!(s.Ok? && s.value.Path?) ==>
         t.View() == old(t.View()) && ParamsOf(lambdas, etas) == old(ParamsOf(lambdas, etas)))
    ensures lambdas == null || etas == null ==>
      (lambdas != null ==> lambdas[..] == old(lambdas[..])) && (etas != null ==> etas[..] == old(etas[..]))
  {
    if d.Halted? {
      return Returned(d.result);
    }
    ghost var v := t.View();
    var p := t.nodes[node].parent;
    var top := t.nodes[p].height;
    assert v[node].parent == p && v[p].height == top;
    ghost var k := |d.lengths| - 1;
    ghost var types := Flips(v[node].nodeType, k);
    ghost var times := Arrivals(v[node].height, d.lengths, k);
    ghost var path := Path(types, times, PathProb(ch, ln, v[node].height, v[node].nodeType, types, times, top, pba));
    r := EmitAndRecalculate(t, lambdas, etas, ch, ln, node, d.lengths, top, pba, path);
  }

  /** The checks, the sampling and the cutting of constrainedRetypeBranch; nothing is written. */
  method LayBranch(t: SeedbankTree, lambdas: array?<Double>, ch: Chain, node: int, pba: real, nVirt: int,
                   typeDraws: seq<real>, dormantDraws: seq<real>, activeDraws: seq<real>) returns (d: Layout)
    requires t.Wf() && 0 <= node < |t.nodes|
    requires t.View()[node].nodeType == 0 || t.View()[node].nodeType == 1
    requires lambdas != null ==> lambdas.Length == |t.nodes| && lambdas[node].Finite?
    ensures d == Laying(t.View(), ch, LambdaIn(lambdas, node), node, pba, nVirt, typeDraws, dormantDraws, activeDraws)
  {
    ghost var v := t.View();
    var n := t.nodes[node];
    assert v[node] == n.Record();
    var p := n.parent;
    if p == -1 {
      return Halted(Fail(NullPointer));
    }
    var start := n.height;
    var startType := n.nodeType;
    var top := t.nodes[p].height;
    var endType := t.nodes[p].nodeType;
    assert v[p].height == top && v[p].nodeType == endType;
    d := LayOut(ch, start, startType, top, endType, LambdaIn(lambdas, node), pba, nVirt, typeDraws, dormantDraws, activeDraws);
  }

  method LayOut(ch: Chain, start: real, startType: int, top: real, endType: int, lam: Option<real>, pba: real,
                nVirt: int, typeDraws: seq<real>, dormantDraws: seq<real>, activeDraws: seq<real>) returns (d: Layout)
    requires startType == 0 || startType == 1
    ensures d == LaidOut(ch, start, startType, top, endType, lam, pba, nVirt, typeDraws, dormantDraws, activeDraws)
  {
    if Rubbish(pba) || nVirt < 0 {
      return Halted(Ok(Aborted));
    }
    var sampled := SampleTypes(ch, startType, endType, nVirt, typeDraws);
    if sampled.Fail? {
      return Halted(Fail(sampled.error));
    }
    if sampled.value.None? {
      return Halted(Ok(Aborted));
    }
    d := CutOut(startType, sampled.value.value, top - start, lam, dormantDraws, activeDraws);
  }

  /** The counting loop of constrainedRetypeBranch, then the cutting. */
  method CutOut(startType: int, types: seq<int>, len: real, lam: Option<real>,
                dormantDraws: seq<real>, activeDraws: seq<real>) returns (d: Layout)
    requires startType == 0 || startType == 1
    ensures d == CutFrom(startType, types, len, lam, dormantDraws, activeDraws)
  {
    var numDormant := CountDormant(startType, types);
    if numDormant == 0 {
      return Halted(Ok(Aborted));
    }
    d := SplitOut(startType, numDormant, len, lam, dormantDraws, activeDraws);
  }

  /** The drawing, sorting, cutting and interleaving loops of constrainedRetypeBranch. */
  method SplitOut(startType: int, numDormant: nat, len: real, lam: Option<real>,
                  dormantDraws: seq<real>, activeDraws: seq<real>) returns (d: Layout)
    requires startType == 0 || startType == 1
    requires numDormant >= 1
    ensures d == Split(startType, numDormant, len, lam, dormantDraws, activeDraws)
  {
    var numActive := numDormant + startType;
    if |dormantDraws| < numDormant - 1 {
      return Halted(Fail(DrawsExhausted));
    }
    if lam.None? {
      return Halted(Fail(NullPointer));
    }
    if |activeDraws| < numActive - 1 {
      return Halted(Fail(DrawsExhausted));
    }
    var lengths := CutOutLengths(startType, len, Scaled(lam.value, len), dormantDraws[..numDormant - 1],
                                 activeDraws[..numActive - 1]);
    d := Laid(lengths);
  }

  /** The sorting, cutting and interleaving loops of constrainedRetypeBranch. */
  method CutOutLengths(startType: int, len: real, dormantLen: real, dormantDraws: seq<real>, activeDraws: seq<real>)
    returns (lengths: seq<real>)
    requires startType == 0 || startType == 1
    requires |activeDraws| == |dormantDraws| + startType
    ensures lengths == Cut(startType, len, dormantLen, dormantDraws, activeDraws)
  {
    var dormantBreaks := SortReals(dormantDraws);
    var dormant := CutStretches(dormantLen, dormantBreaks);
    var activeBreaks := SortReals(activeDraws);
    var active := CutStretches(len - dormantLen, activeBreaks);
    lengths := Interleave(startType, dormant, active);
  }

  /** The write of the flipping changes, recalculateLambda, and the returned probability. */
  method EmitAndRecalculate(t: SeedbankTree, lambdas: array?<Double>, etas: array?<int>, ch: Chain, ln: real -> real,
                            node: int, lengths: seq<real>, top: real, pba: real, ghost path: Path)
    returns (r: Result<Double>)
    requires t.Wf() && 0 <= node < |t.nodes| && |lengths| >= 1
    requires lambdas != null ==> lambdas.Length == |t.nodes|
    requires etas != null ==> etas.Length == |t.nodes|
    requires var n := t.View()[node]; var k := |lengths| - 1;
      var types := Flips(n.nodeType, k); var times := Arrivals(n.height, lengths, k);
      path == Path(types, times, PathProb(ch, ln, n.height, n.nodeType, types, times, top, pba))
    modifies t.nodes[node], lambdas, etas
    ensures t.Wf()
    ensures r == Returned(Ok(path)) && t.View() == Written(old(t.View()), node, path) &&
      ParamsOf(lambdas, etas) == RecalcOpt(old(ParamsOf(lambdas, etas)), t.View(), node)
    ensures lambdas == null || etas == null ==>
      (lambdas != null ==> lambdas[..] == old(lambdas[..])) && (etas != null ==> etas[..] == old(etas[..]))
  {
    var logProb := WriteFlips(t, ch, ln, node, lengths, top);
    RecalculateLambda(t, lambdas, etas, node);
    r := Ok(Sub(logProb, LogOf(ln, pba)));
  }

  /** clearChanges and the emission loop on node. */
  method WriteFlips(t: SeedbankTree, ch: Chain, ln: real -> real, node: int, lengths: seq<real>, top: real)
    returns (logProb: Double)
    requires t.Wf() && 0 <= node < |t.nodes| && |lengths| >= 1
    modifies t.nodes[node]
    ensures t.Wf()
    ensures var n := old(t.View())[node]; var k := |lengths| - 1;
      var types := Flips(n.nodeType, k); var times := Arrivals(n.height, lengths, k);
      t.View() == AppendIn(ClearIn(old(t.View()), node), node, types, times) &&
      logProb == Add(PathTerms(ch, ln, n.height, n.nodeType, types, times),
                     Finite(Closing(ch, n.height, n.nodeType, types, times, top)))
  {
    ClearAt(t, node);
    logProb := EmitAt(t, ch, ln, node, lengths, top);
  }

  /** The emission loop on node, whose changes have been cleared. */
  method EmitAt(t: SeedbankTree, ch: Chain, ln: real -> real, node: int, lengths: seq<real>, top: real)
    returns (logProb: Double)
    requires t.Wf() && 0 <= node < |t.nodes| && |lengths| >= 1
    requires t.View()[node].changeTypes == [] && t.View()[node].changeTimes == []
    modifies t.nodes[node]
    ensures t.Wf()
    ensures var n := old(t.View())[node]; var k := |lengths| - 1;
      var types := Flips(n.nodeType, k); var times := Arrivals(n.height, lengths, k);
      t.View() == AppendIn(old(t.View()), node, types, times) &&
      logProb == Add(PathTerms(ch, ln, n.height, n.nodeType, types, times),
                     Finite(Closing(ch, n.height, n.nodeType, types, times, top)))
  {
    ghost var v := t.View();
    var nd := t.nodes[node];
    assert v[node] == nd.Record();
    var start := nd.height;
    var startType := nd.nodeType;
    ghost var types := Flips(startType, |lengths| - 1);
    ghost var times := Arrivals(start, lengths, |lengths| - 1);
    logProb := EmitOnto(nd, ch, ln, start, startType, lengths, top);
    AppendedOnEmpty(v, node, types, times, nd.Record());
    forall i | 0 <= i < |t.nodes| ensures t.View()[i] == v[node := nd.Record()][i] {
      if i != node {
        assert t.nodes[i] != t.nodes[node];
      }
    }
    assert t.View() == v[node := nd.Record()];
  }

  /**
   * The emission loop on a node with no changes: all but the last stretch
   * become changes, each to the other type at the previous time plus the
   * stretch, while the path terms are summed; then the closing term.
   */
  method EmitOnto(nd: SeedbankNode, ch: Chain, ln: real -> real, start: real, startType: int,
                  lengths: seq<real>, top: real)
    returns (logProb: Double)
    requires |lengths| >= 1 && nd.changeTypes == [] && nd.changeTimes == [] && nd.Valid()
    requires nd.height == start && nd.nodeType == startType
    modifies nd
    ensures var k := |lengths| - 1;
      var types := Flips(startType, k); var times := Arrivals(start, lengths, k);
      nd.Record() == old(nd.Record()).(changeTypes := types, changeTimes := times, changeCount := k) &&
      logProb == Add(PathTerms(ch, ln, start, startType, types, times), Finite(Closing(ch, start, startType, types, times, top)))
  {
    var prevType := startType;
    var prevTime := start;
    logProb := Finite(0.0);
    ghost var types: seq<int> := [];
    ghost var times: seq<real> := [];
    var i := 0;
    while i < |lengths| - 1
      invariant 0 <= i <= |lengths| - 1
      invariant types == Flips(startType, i) && times == Arrivals(start, lengths, i)
      invariant nd.Record() == old(nd.Record()).(changeTypes := types, changeTimes := times, changeCount := i)
      invariant prevType == FinalType(startType, types) && prevTime == PrevTime(start, times)
      invariant logProb == PathTerms(ch, ln, start, startType, types, times)
    {
      var time := After(prevTime, lengths[i]);
      nd.AddChange(Other(prevType), time);
      logProb := Add(logProb, Segment(ch, ln, prevTime, prevType, Other(prevType), time));
      KeptStep(ch, ln, start, startType, types, times, Other(prevType), time);
      FlipsNext(startType, types, i);
      ArrivalsNext(start, lengths, times, i);
      types := types + [Other(prevType)];
      times := times + [time];
      prevType := Other(prevType);
      prevTime := time;
      i := i + 1;
    }
    logProb := Add(logProb, Finite(Holding(ch, prevType, prevTime, top)));
  }
}
