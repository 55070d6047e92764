// SeedbankTreeDensity: the probability density of a seedbank tree under the
// two-deme seedbank coalescent. The tree is read into a list of events
// (samples, coalescences and type changes) ordered from the tips to the
// root, with the lineage counts [dormant, active] below each event, and
// the log density sums one term per interval and one per event.
//
// In this version every coalescent scaling is the constant Theta = 1: the
// deme sizes are read and then overwritten, so the active deme size never
// enters the result.

module Density {
  import opened Wrappers
  import opened Doubles
  import opened SeedbankNodes
  import opened SeedbankTrees
  import opened TransitionModels
  import opened DensityEvents
  import opened DensityWalk

  /** The coalescent scaling used for every interval and every coalescence. */
  const Theta: real := 1.0

  /** Every lineage-count snapshot holds two counts. */
  predicate CountPairs(counts: seq<seq<int>>)
  {
    forall k :: 0 <= k < |counts| ==> |counts[k]| == 2
  }

  /** Total rate of events in an interval with counts [k_d, k_a]. */
  function IntervalRate(m: TransitionModel, counts: seq<int>): real
    requires |counts| == 2
  {
    var ka := counts[1];
    var kd := counts[0];
    (ka * (ka - 1)) as real / (2.0 * Theta) + ka as real * BackwardRate(m, 1, 0) + kd as real * BackwardRate(m, 0, 1)
  }

  /** The term an interval of length dt adds: -dt times the total rate. */
  function IntervalLogP(m: TransitionModel, dt: real, counts: seq<int>): Double
    requires |counts| == 2
  {
    Finite(-dt * IntervalRate(m, counts))
  }

  /** The term an event adds: log(1/Theta) for a coalescence, the log of its rate for a type change. */
  function EventLogP(ln: real -> real, m: TransitionModel, e: SBEvent): Double
  {
    match e.kind
    case Coalesce => LogOf(ln, 1.0 / Theta)
    case Migrate => LogOf(ln, BackwardRate(m, e.ty, e.destType))
    case Sample => Finite(0.0)
  }

  /**
   * The log density accumulated over events 1 .. n-1: for each event the
   * interval since the previous one (when it is longer than 0) adds
   * -delta_t * rate, a coalescence adds log(1/Theta), a type change adds
   * the log of its backward rate, and a sample adds nothing.
   */
  function LogPUpTo(ln: real -> real, m: TransitionModel, events: seq<SBEvent>, counts: seq<seq<int>>, n: nat): Double
    requires n <= |events| && |counts| == |events| && CountPairs(counts)
  {
    if n <= 1 then Finite(0.0)
    else
      var acc := LogPUpTo(ln, m, events, counts, n - 1);
      var e := events[n - 1];
      var dt := e.time - events[n - 2].time;
      var acc1 := if dt > 0.0 then Add(acc, IntervalLogP(m, dt, counts[n - 1])) else acc;
      if e.kind == Sample then acc1 else Add(acc1, EventLogP(ln, m, e))
  }

  function DensityLogP(ln: real -> real, m: TransitionModel, events: seq<SBEvent>, counts: seq<seq<int>>): Double
    requires |counts| == |events| && CountPairs(counts)
  {
    LogPUpTo(ln, m, events, counts, |events|)
  }

  /** Every type change in events 1 .. n-1 goes between two different types. */
  predicate TrueChanges(events: seq<SBEvent>, n: nat)
    requires n <= |events|
  {
    forall k :: 1 <= k < n && events[k].kind == Migrate ==> events[k].ty != events[k].destType
  }

  lemma SameIntervalRate(m: TransitionModel, m': TransitionModel, dt: real, counts: seq<int>)
    requires |counts| == 2 && m'.rate == m.rate && m'.K == m.K
    ensures IntervalLogP(m, dt, counts) == IntervalLogP(m', dt, counts)
  {
    assert BackwardRate(m, 1, 0) == BackwardRate(m', 1, 0);
    assert BackwardRate(m, 0, 1) == BackwardRate(m', 0, 1);
  }

  lemma SameEventLogP(ln: real -> real, m: TransitionModel, m': TransitionModel, e: SBEvent)
    requires m'.rate == m.rate && m'.K == m.K
    ensures EventLogP(ln, m, e) == EventLogP(ln, m', e)
  {
    assert BackwardRate(m, e.ty, e.destType) == BackwardRate(m', e.ty, e.destType);
  }

  /** The log density depends on the transition model only through rate and K. */
  lemma {:induction false} LogPIgnoresActiveSize(ln: real -> real, m: TransitionModel, m': TransitionModel, events: seq<SBEvent>,
                                                 counts: seq<seq<int>>, n: nat)
    requires n <= |events| && |counts| == |events| && CountPairs(counts)
    requires m'.rate == m.rate && m'.K == m.K
    ensures LogPUpTo(ln, m, events, counts, n) == LogPUpTo(ln, m', events, counts, n)
  {
    if n > 1 {
      LogPIgnoresActiveSize(ln, m, m', events, counts, n - 1);
      SameIntervalRate(m, m', events[n - 1].time - events[n - 2].time, counts[n - 1]);
      SameEventLogP(ln, m, m', events[n - 1]);
    }
  }

  lemma PositiveProduct(x: real, y: real)
    requires x > 0.0 && y > 0.0
    ensures x * y > 0.0
  {
  }

  /** With a positive rate and K, a type change between two different types has a positive rate. */
  lemma ChangeRatePositive(m: TransitionModel, i: int, j: int)
    requires m.rate.value > 0.0 && m.K.value > 0.0 && i != j
    ensures BackwardRate(m, i, j) > 0.0
  {
    PositiveProduct(m.rate.value, m.K.value);
  }

  /** With non-negative rates every rate is non-negative. */
  lemma ChangeRateNonNegative(m: TransitionModel, i: int, j: int)
    requires m.rate.value >= 0.0 && m.K.value >= 0.0
    ensures BackwardRate(m, i, j) >= 0.0
  {
    assert m.rate.value * m.K.value >= 0.0;
  }

  /**
   * With positive rates and only true type changes, the log density is
   * finite, whatever the tree's times.
   */
  lemma {:induction false} LogPFinite(ln: real -> real, m: TransitionModel, events: seq<SBEvent>, counts: seq<seq<int>>, n: nat)
    requires n <= |events| && |counts| == |events| && CountPairs(counts)
    requires m.rate.value > 0.0 && m.K.value > 0.0 && TrueChanges(events, n)
    ensures LogPUpTo(ln, m, events, counts, n).Finite?
  {
    if n > 1 {
      assert TrueChanges(events, n - 1);
      LogPFinite(ln, m, events, counts, n - 1);
      var e := events[n - 1];
      if e.kind == Migrate {
        ChangeRatePositive(m, e.ty, e.destType);
      }
    }
  }

  /** With non-negative rates the log density is never NaN or +infinity. */
  lemma {:induction false} LogPNeverNaN(ln: real -> real, m: TransitionModel, events: seq<SBEvent>, counts: seq<seq<int>>, n: nat)
    requires n <= |events| && |counts| == |events| && CountPairs(counts)
    requires m.rate.value >= 0.0 && m.K.value >= 0.0
    ensures LogPUpTo(ln, m, events, counts, n).Finite? || LogPUpTo(ln, m, events, counts, n).NegInf?
  {
    if n > 1 {
      LogPNeverNaN(ln, m, events, counts, n - 1);
      var e := events[n - 1];
      ChangeRateNonNegative(m, e.ty, e.destType);
    }
  }

  /**
   * A recorded type change from a type to itself has rate 0, so its log
   * is -infinity and, with non-negative rates, so is the whole density.
   */
  lemma {:induction false} SelfChangeRejects(ln: real -> real, m: TransitionModel, events: seq<SBEvent>, counts: seq<seq<int>>,
                                             n: nat, k: int)
    requires n <= |events| && |counts| == |events| && CountPairs(counts)
    requires m.rate.value >= 0.0 && m.K.value >= 0.0
    requires 1 <= k < n && events[k].kind == Migrate && events[k].ty == events[k].destType
    ensures LogPUpTo(ln, m, events, counts, n) == NegInf
  {
    LogPNeverNaN(ln, m, events, counts, n - 1);
    var e := events[n - 1];
    ChangeRateNonNegative(m, e.ty, e.destType);
    if k < n - 1 {
      SelfChangeRejects(ln, m, events, counts, n - 1, k);
    }
  }

  /**
   * Below every event of a binary, well-typed tree the two counts are the
   * numbers of open dormant and active lineages: neither is negative and
   * they add up to the open lineages; below the first event there are none.
   */
  lemma CountsAreLineages(v: seq<NodeRec>, root: int, cursors: seq<Cursor>, opens: seq<seq<Cursor>>, counts: seq<seq<int>>, k: int)
    requires LineagesBelow(v, root, cursors, opens, counts) && Tallied(v) && TypesBinary(v) && 0 <= k < |cursors|
    ensures counts[k][0] >= 0 && counts[k][1] >= 0 && counts[k][0] + counts[k][1] == |opens[k]|
    ensures opens[k] == [] ==> counts[k] == [0, 0]
  {
    var open := opens[k];
    forall i | 0 <= i < |open| ensures SegmentType(v, open[i]) == 0 || SegmentType(v, open[i]) == 1 {
      assert ValidCursor(v, open[i]);
    }
    CountsCoverOpen(v, open);
    CountNonNegative(v, open, 0);
    CountNonNegative(v, open, 1);
  }

  /**
   * The scan for the next event: the open cursor whose pending event is
   * the latest, the first such in list order (a later one must be strictly
   * later to replace it), together with that event. A sample or
   * coalescence keeps the destination type of the last migration that was
   * the best so far during the scan, or 0.
   */
  method NextEvent(v: seq<NodeRec>, open: seq<Cursor>) returns (w: int, e: SBEvent)
    requires AllValid(v, open) && |open| > 0
    ensures Latest(v, open, w) && Matches(v, e, open[w])
    ensures forall i :: 0 <= i < w ==> PendingTime(v, open[i]) < PendingTime(v, open[w])
  {
    var found := false;
    e := SBEvent(0.0, 0, 0, Sample, -1);
    w := 0;
    var i := 0;
    while i < |open|
      invariant 0 <= i <= |open|
      invariant found <==> i > 0
      invariant found ==> 0 <= w < i && Matches(v, e, open[w])
      invariant found ==> forall j :: 0 <= j < i ==> PendingTime(v, open[j]) <= PendingTime(v, open[w])
      invariant found ==> forall j :: 0 <= j < w ==> PendingTime(v, open[j]) < PendingTime(v, open[w])
    {
      var c := open[i];
      var x := v[c.node];
      if c.idx < 0 {
        if !found || x.height > e.time {
          e := e.(time := x.height, kind := if IsLeaf(x) then Sample else Coalesce, ty := x.nodeType, node := c.node);
          w := i;
          found := true;
        }
      } else {
        var t := x.changeTimes[c.idx];
        if !found || t > e.time {
          var below := if c.idx > 0 then x.changeTypes[c.idx - 1] else x.nodeType;
          e := e.(time := t, kind := Migrate, destType := x.changeTypes[c.idx], ty := below, node := c.node);
          w := i;
          found := true;
        }
      }
      i := i + 1;
    }
    forall y | y in open ensures ValidCursor(v, y) && PendingTime(v, y) <= PendingTime(v, open[w]) {
      var j :| 0 <= j < |open| && open[j] == y;
    }
  }

  /** A node that is no leaf but lacks a second child makes the tree non-binary. */
  lemma NotBinary(v: seq<NodeRec>, n: int)
    requires 0 <= n < |v| && 0 < |v[n].children| < 2
    ensures !BinaryNodes(v)
  {
  }

  /** A type outside {0, 1} at a node or a change makes the types non-binary. */
  lemma NodeTypeNotBinary(v: seq<NodeRec>, n: int)
    requires 0 <= n < |v| && !(v[n].nodeType == 0 || v[n].nodeType == 1)
    ensures !TypesBinary(v)
  {
  }

  lemma ChangeTypeNotBinary(v: seq<NodeRec>, n: int, k: int)
    requires 0 <= n < |v| && 0 <= k < |v[n].changeTypes| && !(v[n].changeTypes[k] == 0 || v[n].changeTypes[k] == 1)
    ensures !TypesBinary(v)
  {
  }

  /**
   * A coalescence: the node leaves the map and its two children enter it at
   * their topmost change; the count of the node's type goes up by one. A
   * node without a second child raises NullPointer once its first child
   * has entered the map.
   */
  method HandleCoalesce(v: seq<NodeRec>, root: int, open: seq<Cursor>, counts: seq<int>, w: int, e: SBEvent,
                        ghost P: seq<Cursor>, ghost H: seq<seq<Cursor>>, ghost events: seq<SBEvent>, ghost L: seq<seq<int>>)
    returns (r: Outcome, open': seq<Cursor>, counts': seq<int>)
    requires Walk(v, root, P, open, events, H, L, counts) && Latest(v, open, w) && Matches(v, e, open[w])
    requires e.kind == Coalesce
    ensures r.Failed? ==> (r.error == NullPointer || r.error == IndexOutOfBounds) && !(BinaryNodes(v) && TypesBinary(v))
    ensures r.Done? ==> Walk(v, root, P + [open[w]], open', events + [e], H + [open'], L + [counts'], counts')
  {
    var n := e.node;
    var children := v[n].children;
    open' := RemoveKey(open, n);
    counts' := counts;
    open' := Put(open', TopOf(v, children[0]));
    if |children| < 2 {
      NotBinary(v, n);
      return Failed(NullPointer), open', counts';
    }
    open' := Put(open', TopOf(v, children[1]));
    if !(0 <= e.ty < 2) {
      NodeTypeNotBinary(v, n);
      return Failed(IndexOutOfBounds), open', counts';
    }
    counts' := Bumped(counts, e.ty, 1);
    WalkCoalesce(v, root, P, open, events, H, L, counts, w, e);
    r := Done;
  }

  /** A sample: the leaf leaves the map and the count of its type goes down by one. */
  method HandleSample(v: seq<NodeRec>, root: int, open: seq<Cursor>, counts: seq<int>, w: int, e: SBEvent,
                      ghost P: seq<Cursor>, ghost H: seq<seq<Cursor>>, ghost events: seq<SBEvent>, ghost L: seq<seq<int>>)
    returns (r: Outcome, open': seq<Cursor>, counts': seq<int>)
    requires Walk(v, root, P, open, events, H, L, counts) && Latest(v, open, w) && Matches(v, e, open[w])
    requires e.kind == Sample
    ensures r.Failed? ==> r.error == IndexOutOfBounds && !TypesBinary(v)
    ensures r.Done? ==> Walk(v, root, P + [open[w]], open', events + [e], H + [open'], L + [counts'], counts')
  {
    open' := RemoveKey(open, e.node);
    counts' := counts;
    if !(0 <= e.ty < 2) {
      NodeTypeNotBinary(v, e.node);
      return Failed(IndexOutOfBounds), open', counts';
    }
    counts' := Bumped(counts, e.ty, -1);
    WalkSample(v, root, P, open, events, H, L, counts, w, e);
    r := Done;
  }

  /**
   * A type change: one lineage moves from the type above the change to
   * the type below it, and the node's entry moves one change down. The
   * destination type indexes the counts first.
   */
  method HandleMigrate(v: seq<NodeRec>, root: int, open: seq<Cursor>, counts: seq<int>, w: int, e: SBEvent,
                       ghost P: seq<Cursor>, ghost H: seq<seq<Cursor>>, ghost events: seq<SBEvent>, ghost L: seq<seq<int>>)
    returns (r: Outcome, open': seq<Cursor>, counts': seq<int>)
    requires Walk(v, root, P, open, events, H, L, counts) && Latest(v, open, w) && Matches(v, e, open[w])
    requires e.kind == Migrate
    ensures r.Failed? ==> r.error == IndexOutOfBounds && !TypesBinary(v)
    ensures r.Done? ==> Walk(v, root, P + [open[w]], open', events + [e], H + [open'], L + [counts'], counts')
  {
    var c := open[w];
    open' := open;
    counts' := counts;
    if !(0 <= e.destType < 2) {
      ChangeTypeNotBinary(v, c.node, c.idx);
      return Failed(IndexOutOfBounds), open', counts';
    }
    if !(0 <= e.ty < 2) {
      if c.idx > 0 {
        ChangeTypeNotBinary(v, c.node, c.idx - 1);
      } else {
        NodeTypeNotBinary(v, c.node);
      }
      return Failed(IndexOutOfBounds), open', counts';
    }
    counts' := Moved(counts, e.destType, e.ty);
    open' := Put(open, Cursor(c.node, c.idx - 1));
    WalkMigrate(v, root, P, open, events, H, L, counts, w, e);
    r := Done;
  }

  /**
   * One round of updateEventSequence's loop: finds the next event, updates
   * the open branches (the changeIdx map) and the lineage counts, and
   * returns the event and the branch it was read from.
   */
  method HandleNext(v: seq<NodeRec>, root: int, open: seq<Cursor>, counts: seq<int>, ghost P: seq<Cursor>,
                    ghost H: seq<seq<Cursor>>, ghost events: seq<SBEvent>, ghost L: seq<seq<int>>)
    returns (r: Outcome, open': seq<Cursor>, counts': seq<int>, e: SBEvent, ghost c: Cursor)
    requires Walk(v, root, P, open, events, H, L, counts) && |open| > 0
    ensures r.Failed? ==> (r.error == NullPointer || r.error == IndexOutOfBounds) && !(BinaryNodes(v) && TypesBinary(v))
    ensures r.Done? ==> Walk(v, root, P + [c], open', events + [e], H + [open'], L + [counts'], counts')
    ensures r.Done? ==> |AllCursors(v) - Elems(P + [c])| < |AllCursors(v) - Elems(P)|
  {
    var w;
    w, e := NextEvent(v, open);
    c := open[w];
    Picked(v, root, P, open, w);
    FewerLeft(v, P, c);
    match e.kind {
      case Coalesce =>
        r, open', counts' := HandleCoalesce(v, root, open, counts, w, e, P, H, events, L);
      case Sample =>
        r, open', counts' := HandleSample(v, root, open, counts, w, e, P, H, events, L);
      case Migrate =>
        r, open', counts' := HandleMigrate(v, root, open, counts, w, e, P, H, events, L);
    }
  }

  /**
   * The loop of updateEventSequence: starting from the root alone, handles
   * one event per round until no branch is open, and records the events
   * with the counts below each, root first.
   */
  method WalkTree(v: seq<NodeRec>, root: int)
    returns (r: Outcome, events: seq<SBEvent>, countList: seq<seq<int>>, ghost P: seq<Cursor>, ghost H: seq<seq<Cursor>>, counts: seq<int>)
    requires RootedArena(v, root)
    ensures r.Failed? ==> (r.error == NullPointer || r.error == IndexOutOfBounds) && !(BinaryNodes(v) && TypesBinary(v))
    ensures r.Done? ==> |P| > 0 && Walk(v, root, P, [], events, H, countList, counts)
  {
    events, countList := [], [];
    var open := [Cursor(root, -1)];
    counts := [if v[root].nodeType == 0 then 1 else 0, if v[root].nodeType == 1 then 1 else 0];
    P, H := [], [];
    WalkStart(v, root);
    while |open| > 0
      invariant Walk(v, root, P, open, events, H, countList, counts)
      invariant |P| > 0 || |open| > 0
      decreases |AllCursors(v) - Elems(P)|
    {
      var step, open', counts', e;
      ghost var c;
      step, open', counts', e, c := HandleNext(v, root, open, counts, P, H, events, countList);
      if step.Failed? {
        return step, events, countList, P, H, counts;
      }
      open, counts := open', counts';
      events, countList := events + [e], countList + [counts];
      P, H := P + [c], H + [open];
    }
    r := Done;
  }

  /**
   * The loop of calculateLogP: from the second event on, adds each
   * interval's term (when the interval is longer than 0) and each event's
   * term to a sum that starts at 0.
   */
  method SumLogP(ln: real -> real, m: TransitionModel, events: seq<SBEvent>, counts: seq<seq<int>>) returns (acc: Double)
    requires |counts| == |events| && CountPairs(counts)
    ensures acc == DensityLogP(ln, m, events, counts)
  {
    acc := Finite(0.0);
    var k := 1;
    while k < |events|
      invariant 1 <= k && (k <= |events| || k == 1)
      invariant acc == LogPUpTo(ln, m, events, counts, if k <= |events| then k else |events|)
    {
      var e := events[k];
      var lineageCount := counts[k];
      var dt := e.time - events[k - 1].time;
      if dt > 0.0 {
        acc := Add(acc, IntervalLogP(m, dt, lineageCount));
      }
      match e.kind {
        case Coalesce =>
          acc := Add(acc, EventLogP(ln, m, e));
        case Migrate =>
          acc := Add(acc, EventLogP(ln, m, e));
        case Sample =>
      }
      k := k + 1;
    }
  }

  class SeedbankTreeDensity {
    var checkValidity: bool
    var eventList: seq<SBEvent>
    var lineageCountList: seq<seq<int>>
    var logP: Double

    constructor (checkValidity: bool)
      ensures this.checkValidity == checkValidity && eventList == [] && lineageCountList == [] && logP == Finite(0.0)
    {
      this.checkValidity := checkValidity;
      eventList := [];
      lineageCountList := [];
      logP := Finite(0.0);
    }

    /**
     * updateEventSequence: walks the tree from its root, one event at a
     * time, always taking the latest pending event among the open branches,
     * and records each event with the lineage counts just below it; then
     * reverses both lists so that they run from the tips to the root.
     * On an exception the lists keep what the walk had recorded so far.
     */
    method UpdateEventSequence(v: seq<NodeRec>, root: int) returns (r: Outcome, ghost cursors: seq<Cursor>, ghost opens: seq<seq<Cursor>>)
      requires RootedArena(v, root)
      modifies this
      ensures checkValidity == old(checkValidity) && logP == old(logP)
      ensures r.Failed? ==> (r.error == NullPointer || r.error == IndexOutOfBounds) && !(BinaryNodes(v) && TypesBinary(v))
      ensures r.Done? ==> EventSequence(v, root, eventList, cursors)
      ensures r.Done? ==> LineagesBelow(v, root, cursors, opens, lineageCountList) && opens[0] == []
      ensures r.Done? && AllBranchesOrdered(v) ==> Chronological(v, cursors)
    {
      var events, countList, counts;
      ghost var P, H;
      r, events, countList, P, H, counts := WalkTree(v, root);
      if r.Failed? {
        eventList := events;
        lineageCountList := countList;
        return r, [], [];
      }
      Finished(v, root, P, events, H, countList, counts);
      eventList := Reverse(events);
      lineageCountList := Reverse(countList);
      cursors := Reverse(P);
      opens := Reverse(H);
    }

    /**
     * calculateLogP: with checkValidity on, a changed tree that is not
     * valid is rejected at once (the result is -infinity and logP keeps its
     * value). Otherwise the event list is rebuilt and logP is the sum, over
     * the events after the first, of each interval's and each event's term.
     * An exception from rebuilding the list leaves logP alone.
     */
    method CalculateLogP(ln: real -> real, m: TransitionModel, v: seq<NodeRec>, root: int, dirty: bool)
      returns (r: Result<Double>, ghost cursors: seq<Cursor>, ghost opens: seq<seq<Cursor>>)
      requires RootedArena(v, root)
      modifies this
      ensures checkValidity == old(checkValidity)
      ensures checkValidity && dirty && !IsValidTree(v, root) ==>
        r == Ok(NegInf) && logP == old(logP) && eventList == old(eventList) && lineageCountList == old(lineageCountList)
      ensures r.Fail? ==> (r.error == NullPointer || r.error == IndexOutOfBounds) && !(BinaryNodes(v) && TypesBinary(v)) && logP == old(logP)
      ensures r.Ok? && !(checkValidity && dirty && !IsValidTree(v, root)) ==>
        EventSequence(v, root, eventList, cursors) && LineagesBelow(v, root, cursors, opens, lineageCountList) && opens[0] == [] &&
        (AllBranchesOrdered(v) ==> Chronological(v, cursors)) &&
        CountPairs(lineageCountList) && logP == DensityLogP(ln, m, eventList, lineageCountList) && r.value == logP
    {
      if checkValidity && dirty {
        var valid := IsValid(v, root);
        if !valid {
          return Ok(NegInf), [], [];
        }
      }
      var step;
      step, cursors, opens := UpdateEventSequence(v, root);
      if step.Failed? {
        return Fail(step.error), cursors, opens;
      }
      assert CountPairs(lineageCountList) by {
        forall k | 0 <= k < |lineageCountList| ensures |lineageCountList[k]| == 2 {
        }
      }
      var acc := SumLogP(ln, m, eventList, lineageCountList);
      logP := acc;
      r := Ok(logP);
    }
  }
}
