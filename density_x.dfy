// SeedbankTreeDensityX: the density of a seedbank tree whose type changes
// are nodes of their own (SeedbankNodeX). The walk from the root keeps a
// set of live nodes instead of open branches; the log density scales every
// coalescence by the population size of its deme, and every interval's
// coalescence rate by the active population size N_a.

module DensityX {
  import opened Wrappers
  import opened Doubles
  import opened TransitionModels
  import opened SeedbankTrees
  import opened SeedbankTreesX
  import opened DensityEvents
  import opened DensityWalk
  import opened Density
  import opened DensityXWalk

  // ----- the log density -----

  /** The total rate of an interval with counts [k_d, k_a]: k_a(k_a-1)/(2 N_a) + k_a m_ad + k_d m_da, in Java doubles. */
  function IntervalRateX(m: TransitionModel, counts: seq<int>): Double
    requires |counts| == 2
  {
    var ka := counts[1];
    var kd := counts[0];
    var na := PopSize(m, 1).v;
    var lambda := Add(Finite(0.0), Div((ka * (ka - 1)) as real, 2.0 * na));
    var lambda1 := Add(lambda, Finite(ka as real * BackwardRate(m, 1, 0)));
    Add(lambda1, Finite(kd as real * BackwardRate(m, 0, 1)))
  }

  /** The term an interval of length dt adds: -dt times its rate. */
  function IntervalLogPX(m: TransitionModel, dt: real, counts: seq<int>): Double
    requires |counts| == 2
  {
    Mul(IntervalRateX(m, counts), -dt)
  }

  /** The term an event adds: log(1/N) for a coalescence in a deme of size N, the log of its rate for a type change. */
  function EventLogPX(ln: real -> real, m: TransitionModel, e: SBEvent): Double
  {
    match e.kind
    case Coalesce => Log(ln, Recip(PopSize(m, e.ty)))
    case Migrate => LogOf(ln, BackwardRate(m, e.ty, e.destType))
    case Sample => Finite(0.0)
  }

  /** The log density accumulated over events 1 .. n-1, as in the node-change version with the terms above. */
  function LogPUpToX(ln: real -> real, m: TransitionModel, events: seq<SBEvent>, counts: seq<seq<int>>, n: nat): Double
    requires n <= |events| && |counts| == |events| && CountPairs(counts)
  {
    if n <= 1 then Finite(0.0)
    else
      var acc := LogPUpToX(ln, m, events, counts, n - 1);
      var e := events[n - 1];
      var dt := e.time - events[n - 2].time;
      var acc1 := if dt > 0.0 then Add(acc, IntervalLogPX(m, dt, counts[n - 1])) else acc;
      if e.kind == Kind.Sample then acc1 else Add(acc1, EventLogPX(ln, m, e))
  }

  function DensityLogPX(ln: real -> real, m: TransitionModel, events: seq<SBEvent>, counts: seq<seq<int>>): Double
    requires |counts| == |events| && CountPairs(counts)
  {
    LogPUpToX(ln, m, events, counts, |events|)
  }

  lemma PositiveQuotient(x: real, y: real)
    requires x > 0.0 && y > 0.0
    ensures x / y > 0.0
  {
  }

  /** With positive sizes every deme has a finite positive population size, so a coalescence adds a finite term. */
  lemma CoalescenceFinite(ln: real -> real, m: TransitionModel, t: int)
    requires m.activeSize.value > 0.0 && m.K.value > 0.0
    ensures Log(ln, Recip(PopSize(m, t))).Finite?
  {
    if t != 1 {
      PositiveQuotient(m.activeSize.value, m.K.value);
    }
    PositiveQuotient(1.0, PopSize(m, t).v);
  }

  /** With non-negative rates and a positive active size every interval's term is finite. */
  lemma IntervalFinite(m: TransitionModel, dt: real, counts: seq<int>)
    requires |counts| == 2 && m.activeSize.value > 0.0 && m.rate.value >= 0.0 && m.K.value >= 0.0
    ensures IntervalLogPX(m, dt, counts).Finite?
  {
  }

  /**
   * With a positive active size, rate and K and only true type changes,
   * the log density is finite, whatever the tree's times.
   */
  lemma {:induction false} LogPFiniteX(ln: real -> real, m: TransitionModel, events: seq<SBEvent>, counts: seq<seq<int>>, n: nat)
    requires n <= |events| && |counts| == |events| && CountPairs(counts)
    requires m.activeSize.value > 0.0 && m.rate.value > 0.0 && m.K.value > 0.0 && TrueChanges(events, n)
    ensures LogPUpToX(ln, m, events, counts, n).Finite?
  {
    if n > 1 {
      assert TrueChanges(events, n - 1);
      LogPFiniteX(ln, m, events, counts, n - 1);
      var e := events[n - 1];
      IntervalFinite(m, e.time - events[n - 2].time, counts[n - 1]);
      if e.kind == Migrate {
        ChangeRatePositive(m, e.ty, e.destType);
      } else if e.kind == Coalesce {
        CoalescenceFinite(ln, m, e.ty);
      }
    }
  }

  /** A coalescence adds a finite term or -infinity (the latter when K = 0 makes the dormant deme infinite). */
  lemma CoalescenceNeverNaN(ln: real -> real, m: TransitionModel, t: int)
    requires m.activeSize.value > 0.0 && m.K.value >= 0.0
    ensures Log(ln, Recip(PopSize(m, t))).Finite? || Log(ln, Recip(PopSize(m, t))).NegInf?
  {
    if m.K.value > 0.0 {
      CoalescenceFinite(ln, m, t);
    }
  }

  /** With a positive active size and non-negative rates the log density is never NaN or +infinity. */
  lemma {:induction false} LogPNeverNaNX(ln: real -> real, m: TransitionModel, events: seq<SBEvent>, counts: seq<seq<int>>, n: nat)
    requires n <= |events| && |counts| == |events| && CountPairs(counts)
    requires m.activeSize.value > 0.0 && m.rate.value >= 0.0 && m.K.value >= 0.0
    ensures LogPUpToX(ln, m, events, counts, n).Finite? || LogPUpToX(ln, m, events, counts, n).NegInf?
  {
    if n > 1 {
      LogPNeverNaNX(ln, m, events, counts, n - 1);
      var e := events[n - 1];
      IntervalFinite(m, e.time - events[n - 2].time, counts[n - 1]);
      ChangeRateNonNegative(m, e.ty, e.destType);
      CoalescenceNeverNaN(ln, m, e.ty);
    }
  }

  /**
   * With no active population (N_a = 0) an interval holding at most one
   * active lineage has rate 0/0: the log density of the whole tree is NaN.
   */
  lemma EmptyActiveDemeIsNaN(ln: real -> real, m: TransitionModel, events: seq<SBEvent>, counts: seq<seq<int>>, n: nat, k: int)
    requires n <= |events| && |counts| == |events| && CountPairs(counts)
    requires m.activeSize.value == 0.0 && 1 <= k < n
    requires events[k].time > events[k - 1].time && 0 <= counts[k][1] <= 1
    ensures LogPUpToX(ln, m, events, counts, n).NaN?
    decreases n
  {
    if k < n - 1 {
      EmptyActiveDemeIsNaN(ln, m, events, counts, n - 1, k);
    } else {
      var ka := counts[k][1];
      assert ka * (ka - 1) == 0;
      assert IntervalRateX(m, counts[k]).NaN?;
    }
  }

  /**
   * When N_a = 1 and K = 1 every population size is 1, and the density
   * equals that of SeedbankTreeDensity (whose scaling is the constant 1)
   * on the same events and counts.
   */
  lemma {:induction false} UnitSizesAgree(ln: real -> real, m: TransitionModel, events: seq<SBEvent>, counts: seq<seq<int>>, n: nat)
    requires n <= |events| && |counts| == |events| && CountPairs(counts)
    requires m.activeSize.value == 1.0 && m.K.value == 1.0
    ensures LogPUpToX(ln, m, events, counts, n) == LogPUpTo(ln, m, events, counts, n)
  {
    if n > 1 {
      UnitSizesAgree(ln, m, events, counts, n - 1);
      UnitStepAgrees(ln, m, events[n - 1], counts[n - 1], events[n - 1].time - events[n - 2].time);
    }
  }

  /** With unit sizes, one interval and one event contribute what they do in SeedbankTreeDensity. */
  lemma UnitStepAgrees(ln: real -> real, m: TransitionModel, e: SBEvent, c: seq<int>, dt: real)
    requires |c| == 2 && m.activeSize.value == 1.0 && m.K.value == 1.0
    ensures IntervalLogPX(m, dt, c) == IntervalLogP(m, dt, c)
    ensures EventLogPX(ln, m, e) == EventLogP(ln, m, e)
  {
    var x := IntervalRate(m, c);
    assert IntervalRateX(m, c) == Finite(x);
    assert IntervalLogPX(m, dt, c) == Finite(x * -dt);
    assert x * -dt == -dt * x;
    assert Recip(PopSize(m, e.ty)) == Finite(1.0 / Theta);
  }

  /** A recorded type change from a type to itself has rate 0, so, with the sizes as above, the density is -infinity. */
  lemma {:induction false} SelfChangeRejectsX(ln: real -> real, m: TransitionModel, events: seq<SBEvent>, counts: seq<seq<int>>,
                                              n: nat, k: int)
    requires n <= |events| && |counts| == |events| && CountPairs(counts)
    requires m.activeSize.value > 0.0 && m.rate.value >= 0.0 && m.K.value >= 0.0
    requires 1 <= k < n && events[k].kind == Migrate && events[k].ty == events[k].destType
    ensures LogPUpToX(ln, m, events, counts, n) == NegInf
  {
    LogPNeverNaNX(ln, m, events, counts, n - 1);
    var e := events[n - 1];
    IntervalFinite(m, e.time - events[n - 2].time, counts[n - 1]);
    ChangeRateNonNegative(m, e.ty, e.destType);
    CoalescenceNeverNaN(ln, m, e.ty);
    if k < n - 1 {
      SelfChangeRejectsX(ln, m, events, counts, n - 1, k);
    }
  }

  /**
   * Below every event of a well-formed, well-typed tree the two counts
   * are the numbers of live dormant and active lineages: neither is
   * negative and they add up to the live lineages.
   */
  lemma CountsAreLiveNodes(v: seq<NodeX>, root: int, nodes: seq<int>, opens: seq<seq<int>>, counts: seq<seq<int>>, k: int)
    requires LineagesBelowX(v, root, nodes, opens, counts) && Counted(v, root) && 0 <= k < |nodes|
    ensures counts[k][0] >= 0 && counts[k][1] >= 0 && counts[k][0] + counts[k][1] == |opens[k]|
  {
    assert LiveRecordX(v, root, nodes[k..], opens[k], counts[k]);
    forall x | x in opens[k] ensures 0 <= x < |v| && 0 <= v[x].nodeType < 2 {
      assert NodeWellX(v, x);
    }
    CountsCover(v, opens[k]);
  }

  lemma {:induction false} CountsCover(v: seq<NodeX>, s: seq<int>)
    requires forall x :: x in s ==> 0 <= x < |v| && 0 <= v[x].nodeType < 2
    ensures CountT(v, s, 0) >= 0 && CountT(v, s, 1) >= 0 && CountT(v, s, 0) + CountT(v, s, 1) == |s|
    decreases |s|
  {
    if |s| > 0 {
      assert s[0] in s;
      assert forall x :: x in s[1..] ==> x in s;
      CountsCover(v, s[1..]);
    }
  }

  // ----- the walk -----

  /**
   * The scan for the next event: the live node with the latest height,
   * the first such in set order (a later one must be strictly higher to
   * replace it), and its event. A null entry raises NullPointer and a dummy
   * node a RuntimeException when the scan reaches it. A sample or
   * coalescence keeps the destination type of the last type change that
   * was the best so far during the scan, or 0.
   */
  method NextEventX(v: seq<NodeX>, live: seq<int>) returns (r: Outcome, w: int, e: SBEvent)
    requires |live| > 0 && forall x :: x in live ==> -1 <= x < |v|
    ensures r.Done? ==> LatestX(v, live, w) && MatchesX(v, e, live[w])
    ensures r.Failed? ==> (r.error == NullPointer && -1 in live) ||
                          (r.error == Runtime && exists x :: x in live && 0 <= x < |v| && v[x].event.Dummy?)
  {
    var found := false;
    e := SBEvent(0.0, 0, 0, Kind.Sample, -1);
    w := 0;
    var i := 0;
    while i < |live|
      invariant 0 <= i <= |live|
      invariant found <==> i > 0
      invariant found ==> 0 <= w < i && MatchesX(v, e, live[w])
      invariant forall j :: 0 <= j < i ==> 0 <= live[j] < |v| && v[live[j]].height <= v[live[w]].height
    {
      var x := live[i];
      assert x in live;
      if x == -1 {
        return Failed(NullPointer), w, e;
      }
      var node := v[x];
      if node.event.Dummy? {
        assert x in live;
        return Failed(Runtime), w, e;
      }
      if !found || node.height > e.time {
        if node.event.Sample? {
          e := e.(time := node.height, kind := Kind.Sample, ty := node.nodeType, node := x);
        } else if node.event.Coalescent? {
          e := e.(time := node.height, kind := Coalesce, ty := node.nodeType, node := x);
        } else {
          e := e.(time := node.height, kind := Migrate, destType := node.nodeType, ty := node.nodeToType, node := x);
        }
        w := i;
        found := true;
      }
      i := i + 1;
    }
    forall y | y in live ensures 0 <= y < |v| && v[y].height <= v[live[w]].height {
      var j :| 0 <= j < |live| && live[j] == y;
    }
    r := Done;
  }

  /** A live node that fails a round's check makes the tree ill-formed. */
  lemma NotWell(v: seq<NodeX>, root: int, live: seq<int>, n: int)
    requires n in live && 0 <= n < |v| && !v[n].event.Dummy? && !NodeWellX(v, n)
    ensures !WellX(v, root)
  {
  }

  /** On a tree whose counts are exact, the counts an event leaves are those of the live set it leaves. */
  lemma TallyAfterX(v: seq<NodeX>, root: int, P: seq<int>, live: seq<int>, events: seq<SBEvent>,
                    H: seq<seq<int>>, L: seq<seq<int>>, counts: seq<int>, w: int, e: SBEvent, counts': seq<int>)
    requires WalkX(v, root, P, live, events, H, L, counts) && LatestX(v, live, w) && MatchesX(v, e, live[w])
    requires 0 <= e.ty < 2 && (e.kind == Migrate ==> 0 <= e.destType < 2) && counts' == CountsAfter(counts, e)
    ensures |counts'| == 2 && (Counted(v, root) ==> counts' == TallyX(v, LiveAfter(v, live, live[w])))
  {
    if Counted(v, root) {
      var n := live[w];
      assert n in live;
      OpenedFresh(v, root, P, live, n);
      assert NodeWellX(v, n);
      CountsAfterTally(v, root, live, n, e, counts);
    }
  }

  /** A coalescence: the node leaves the set, its left and right child join it, and the count of its type goes up by one. */
  method HandleCoalesceX(v: seq<NodeX>, root: int, live: seq<int>, counts: seq<int>, w: int, e: SBEvent,
                         ghost P: seq<int>, ghost H: seq<seq<int>>, ghost events: seq<SBEvent>, ghost L: seq<seq<int>>)
    returns (r: Outcome, live': seq<int>, counts': seq<int>)
    requires WalkX(v, root, P, live, events, H, L, counts) && LatestX(v, live, w) && MatchesX(v, e, live[w])
    requires e.kind == Coalesce
    ensures r.Failed? ==> r.error == IndexOutOfBounds && !WellX(v, root)
    ensures r.Done? ==> live' == LiveAfter(v, live, live[w]) &&
                        WalkX(v, root, P + [live[w]], live', events + [e], H + [live'], L + [counts'], counts')
  {
    var n := e.node;
    var leftChild := GetLeft(v[n].children);
    var rightChild := GetRight(v[n].children);
    live' := SetRemove(live, n);
    live' := SetAdd(live', leftChild);
    live' := SetAdd(live', rightChild);
    counts' := counts;
    if !(0 <= e.ty < 2) {
      assert live[w] in live;
      NotWell(v, root, live, n);
      return Failed(IndexOutOfBounds), live', counts';
    }
    counts' := Bumped(counts, e.ty, 1);
    assert counts' == CountsAfter(counts, e);
    assert live' == LiveAfter(v, live, live[w]);
    TallyAfterX(v, root, P, live, events, H, L, counts, w, e, counts');
    WalkCloseX(v, root, P, live, events, H, L, counts, w, e, counts');
    r := Done;
  }

  /** A sample: the node leaves the set and the count of its type goes down by one. */
  method HandleSampleX(v: seq<NodeX>, root: int, live: seq<int>, counts: seq<int>, w: int, e: SBEvent,
                       ghost P: seq<int>, ghost H: seq<seq<int>>, ghost events: seq<SBEvent>, ghost L: seq<seq<int>>)
    returns (r: Outcome, live': seq<int>, counts': seq<int>)
    requires WalkX(v, root, P, live, events, H, L, counts) && LatestX(v, live, w) && MatchesX(v, e, live[w])
    requires e.kind == Kind.Sample
    ensures r.Failed? ==> r.error == IndexOutOfBounds && !WellX(v, root)
    ensures r.Done? ==> live' == LiveAfter(v, live, live[w]) &&
                        WalkX(v, root, P + [live[w]], live', events + [e], H + [live'], L + [counts'], counts')
  {
    var n := e.node;
    live' := SetRemove(live, n);
    counts' := counts;
    if !(0 <= e.ty < 2) {
      assert live[w] in live;
      NotWell(v, root, live, n);
      return Failed(IndexOutOfBounds), live', counts';
    }
    counts' := Bumped(counts, e.ty, -1);
    assert counts' == CountsAfter(counts, e);
    assert live' == LiveAfter(v, live, live[w]);
    TallyAfterX(v, root, P, live, events, H, L, counts, w, e, counts');
    WalkCloseX(v, root, P, live, events, H, L, counts, w, e, counts');
    r := Done;
  }

  /**
   * A type change: the node leaves the set and its daughter (left child)
   * joins it; one lineage moves from the type above the change to the type
   * below it. The type above indexes the counts first.
   */
  method HandleMigrateX(v: seq<NodeX>, root: int, live: seq<int>, counts: seq<int>, w: int, e: SBEvent,
                        ghost P: seq<int>, ghost H: seq<seq<int>>, ghost events: seq<SBEvent>, ghost L: seq<seq<int>>)
    returns (r: Outcome, live': seq<int>, counts': seq<int>)
    requires WalkX(v, root, P, live, events, H, L, counts) && LatestX(v, live, w) && MatchesX(v, e, live[w])
    requires e.kind == Migrate
    ensures r.Failed? ==> r.error == IndexOutOfBounds && !WellX(v, root)
    ensures r.Done? ==> live' == LiveAfter(v, live, live[w]) &&
                        WalkX(v, root, P + [live[w]], live', events + [e], H + [live'], L + [counts'], counts')
  {
    var n := e.node;
    var daughter := GetLeft(v[n].children);
    live' := SetRemove(live, n);
    live' := SetAdd(live', daughter);
    counts' := counts;
    if !(0 <= e.destType < 2) || !(0 <= e.ty < 2) {
      assert live[w] in live;
      NotWell(v, root, live, n);
      return Failed(IndexOutOfBounds), live', counts';
    }
    counts' := Moved(counts, e.destType, e.ty);
    assert counts' == CountsAfter(counts, e);
    assert live' == LiveAfter(v, live, live[w]);
    TallyAfterX(v, root, P, live, events, H, L, counts, w, e, counts');
    WalkCloseX(v, root, P, live, events, H, L, counts, w, e, counts');
    r := Done;
  }

  /** A failed scan on a well-formed tree is impossible: such a tree never puts null or a dummy in the set. */
  lemma ScanFailure(v: seq<NodeX>, root: int, live: seq<int>)
    requires (WellX(v, root) ==> LiveWell(v, live))
    requires -1 in live || exists x :: x in live && 0 <= x < |v| && v[x].event.Dummy?
    ensures !WellX(v, root)
  {
  }

  /** One round of updateEventSequence's loop: the scan, then the update of the live set and the counts. */
  method HandleNextX(v: seq<NodeX>, root: int, live: seq<int>, counts: seq<int>, ghost P: seq<int>,
                     ghost H: seq<seq<int>>, ghost events: seq<SBEvent>, ghost L: seq<seq<int>>)
    returns (r: Outcome, live': seq<int>, counts': seq<int>, e: SBEvent, ghost n: int)
    requires WalkX(v, root, P, live, events, H, L, counts) && |live| > 0
    ensures r.Failed? ==> (r.error == NullPointer || r.error == Runtime || r.error == IndexOutOfBounds) && !WellX(v, root)
    ensures r.Done? ==> WalkX(v, root, P + [n], live', events + [e], H + [live'], L + [counts'], counts')
    ensures r.Done? ==> |AllNodes(|v|) - ElemsX(P + [n])| < |AllNodes(|v|) - ElemsX(P)|
  {
    var w;
    r, w, e := NextEventX(v, live);
    if r.Failed? {
      ScanFailure(v, root, live);
      return r, live, counts, e, -1;
    }
    n := live[w];
    assert n in live;
    FrontierStepX(v, root, P, live, n);
    FewerLeftX(v, P, n);
    match e.kind {
      case Coalesce =>
        r, live', counts' := HandleCoalesceX(v, root, live, counts, w, e, P, H, events, L);
      case Sample =>
        r, live', counts' := HandleSampleX(v, root, live, counts, w, e, P, H, events, L);
      case Migrate =>
        r, live', counts' := HandleMigrateX(v, root, live, counts, w, e, P, H, events, L);
    }
  }

  /**
   * The loop of updateEventSequence: starting from the root alone, handles
   * one event per round until no node is live, and records the events with
   * the counts below each, root first.
   */
  method WalkTreeX(v: seq<NodeX>, root: int)
    returns (r: Outcome, events: seq<SBEvent>, countList: seq<seq<int>>, ghost P: seq<int>, ghost H: seq<seq<int>>, counts: seq<int>)
    requires RootedX(v, root)
    ensures r.Failed? ==> (r.error == NullPointer || r.error == Runtime || r.error == IndexOutOfBounds) && !WellX(v, root)
    ensures r.Done? ==> |P| > 0 && WalkX(v, root, P, [], events, H, countList, counts)
  {
    events, countList := [], [];
    var live := [root];
    counts := [if v[root].nodeType == 0 then 1 else 0, if v[root].nodeType == 1 then 1 else 0];
    P, H := [], [];
    WalkStartX(v, root);
    while |live| > 0
      invariant WalkX(v, root, P, live, events, H, countList, counts)
      invariant |P| > 0 || |live| > 0
      decreases |AllNodes(|v|) - ElemsX(P)|
    {
      var step, live', counts', e;
      ghost var n;
      step, live', counts', e, n := HandleNextX(v, root, live, counts, P, H, events, countList);
      if step.Failed? {
        return step, events, countList, P, H, counts;
      }
      live, counts := live', counts';
      events, countList := events + [e], countList + [counts];
      P, H := P + [n], H + [live];
    }
    r := Done;
  }

  /**
   * The loop of calculateLogP: from the second event on, adds each
   * interval's term (when the interval is longer than 0) and each event's
   * term to a sum that starts at 0.
   */
  method SumLogPX(ln: real -> real, m: TransitionModel, events: seq<SBEvent>, counts: seq<seq<int>>) returns (acc: Double)
    requires |counts| == |events| && CountPairs(counts)
    ensures acc == DensityLogPX(ln, m, events, counts)
  {
    acc := Finite(0.0);
    var k := 1;
    while k < |events|
      invariant 1 <= k && (k <= |events| || k == 1)
      invariant acc == LogPUpToX(ln, m, events, counts, if k <= |events| then k else |events|)
    {
      var e := events[k];
      var lineageCount := counts[k];
      var dt := e.time - events[k - 1].time;
      if dt > 0.0 {
        acc := Add(acc, IntervalLogPX(m, dt, lineageCount));
      }
      match e.kind {
        case Coalesce =>
          acc := Add(acc, EventLogPX(ln, m, e));
        case Migrate =>
          acc := Add(acc, EventLogPX(ln, m, e));
        case Sample =>
      }
      k := k + 1;
    }
  }

  class SeedbankTreeDensityX {
    var checkValidity: bool
    var eventList: seq<SBEvent>
    var lineageCountList: seq<seq<int>>
    var logP: Double

    constructor (checkValidity: bool)
      ensures this.checkValidity == checkValidity && eventList == [] && lineageCountList == [] && logP == Finite(0.0)
    {
      this.checkValidity := checkValidity;
      eventList := [];
      lineageCountList := [];
      logP := Finite(0.0);
    }

    /**
     * updateEventSequence: walks the tree from its root, one event per
     * round, always taking the highest live node, and records each event
     * with the lineage counts just below it; then reverses both lists so
     * that they run from the tips to the root. On an exception the lists
     * keep what the walk had recorded so far.
     */
    method UpdateEventSequence(v: seq<NodeX>, root: int) returns (r: Outcome, ghost nodes: seq<int>, ghost opens: seq<seq<int>>)
      requires RootedX(v, root)
      modifies this
      ensures checkValidity == old(checkValidity) && logP == old(logP)
      ensures r.Failed? ==> (r.error == NullPointer || r.error == Runtime || r.error == IndexOutOfBounds) && !WellX(v, root)
      ensures r.Done? ==> EventSequenceX(v, root, eventList, nodes)
      ensures r.Done? ==> LineagesBelowX(v, root, nodes, opens, lineageCountList) && opens[0] == []
      ensures r.Done? && LocallyTimed(v) ==> ChronologicalX(v, nodes)
    {
      var events, countList, counts;
      ghost var P, H;
      r, events, countList, P, H, counts := WalkTreeX(v, root);
      if r.Failed? {
        eventList := events;
        lineageCountList := countList;
        return r, [], [];
      }
      FinishedX(v, root, P, events, H, countList, counts);
      eventList := Reverse(events);
      lineageCountList := Reverse(countList);
      nodes := Reverse(P);
      opens := Reverse(H);
    }

    /**
     * calculateLogP: with checkValidity on, a tree that is not valid is
     * rejected at once, whether or not it changed (the result is -infinity
     * and logP keeps its value). Otherwise the event list is rebuilt and
     * logP is the sum, over the events after the first, of each interval's
     * and each event's term. An exception from rebuilding the list leaves
     * logP alone.
     */
    method CalculateLogP(ln: real -> real, m: TransitionModel, v: seq<NodeX>, root: int)
      returns (r: Result<Double>, ghost nodes: seq<int>, ghost opens: seq<seq<int>>)
      requires RootedX(v, root)
      modifies this
      ensures checkValidity == old(checkValidity)
      ensures checkValidity && !IsValidTreeX(v, root) ==>
        r == Ok(NegInf) && logP == old(logP) && eventList == old(eventList) && lineageCountList == old(lineageCountList)
      ensures r.Fail? ==> (r.error == NullPointer || r.error == Runtime || r.error == IndexOutOfBounds) && !WellX(v, root) && logP == old(logP)
      ensures r.Ok? && !(checkValidity && !IsValidTreeX(v, root)) ==>
        EventSequenceX(v, root, eventList, nodes) && LineagesBelowX(v, root, nodes, opens, lineageCountList) && opens[0] == [] &&
        (LocallyTimed(v) ==> ChronologicalX(v, nodes)) &&
        CountPairs(lineageCountList) && logP == DensityLogPX(ln, m, eventList, lineageCountList) && r.value == logP
    {
      if checkValidity {
        var valid := IsValidX(v, root);
        if !valid {
          return Ok(NegInf), [], [];
        }
      }
      var step;
      step, nodes, opens := UpdateEventSequence(v, root);
      if step.Failed? {
        return Fail(step.error), nodes, opens;
      }
      assert CountPairs(lineageCountList) by {
        forall k | 0 <= k < |lineageCountList| ensures |lineageCountList[k]| == 2 {
        }
      }
      var acc := SumLogPX(ln, m, eventList, lineageCountList);
      logP := acc;
      r := Ok(logP);
    }
  }
}
