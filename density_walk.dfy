// The invariant of the root-to-tips walk behind the seedbank-tree density,
// one lemma per kind of event: what has been handled, what is open, the
// lineage counts recorded after each event and the order of event times.

module DensityWalk {
  import opened Wrappers
  import opened SeedbankNodes
  import opened SeedbankTrees
  import opened DensityEvents

  /** Every node has no children or two different ones. */
  predicate BinaryNodes(v: seq<NodeRec>)
  {
    forall i :: 0 <= i < |v| ==>
      |v[i].children| == 0 || (|v[i].children| == 2 && v[i].children[0] != v[i].children[1])
  }

  /** Every node type and every change type is 0 or 1. */
  predicate TypesBinary(v: seq<NodeRec>)
  {
    forall i :: 0 <= i < |v| ==>
      (v[i].nodeType == 0 || v[i].nodeType == 1) &&
      forall k :: 0 <= k < |v[i].changeTypes| ==> v[i].changeTypes[k] == 0 || v[i].changeTypes[k] == 1
  }

  /** The trees whose lineage counts are exact: binary, with every branch ending in its parent's type. */
  predicate Tallied(v: seq<NodeRec>)
  {
    Shaped(v) && BinaryNodes(v) && AllTypesMatch(v)
  }

  // ----- counts, one lemma per kind of event -----

  lemma MigrateCounts(v: seq<NodeRec>, open: seq<Cursor>, w: int, t: int)
    requires AllValid(v, open) && DistinctKeys(open) && 0 <= w < |open| && open[w].idx >= 0
    ensures ValidCursor(v, Cursor(open[w].node, open[w].idx - 1))
    ensures AllValid(v, Put(open, Cursor(open[w].node, open[w].idx - 1)))
    ensures CountType(v, Put(open, Cursor(open[w].node, open[w].idx - 1)), t)
            == CountType(v, open, t) - Ind(SegmentType(v, open[w]) == t) + Ind(TypeBelow(v, open[w]) == t)
  {
    var c := open[w];
    assert ValidCursor(v, c);
    var d := Cursor(c.node, c.idx - 1);
    KeyIndexOf(open, w);
    assert Put(open, d) == open[w := d];
    CountUpdate(v, open, w, d, t);
  }

  lemma SampleCounts(v: seq<NodeRec>, open: seq<Cursor>, w: int, t: int)
    requires AllValid(v, open) && DistinctKeys(open) && 0 <= w < |open|
    ensures AllValid(v, RemoveKey(open, open[w].node))
    ensures CountType(v, RemoveKey(open, open[w].node), t) == CountType(v, open, t) - Ind(SegmentType(v, open[w]) == t)
  {
    KeyIndexOf(open, w);
    assert RemoveKey(open, open[w].node) == RemoveAt(open, w);
    CountRemoveAt(v, open, w, t);
  }

  lemma CoalesceCounts(v: seq<NodeRec>, open: seq<Cursor>, w: int, cl: Cursor, cr: Cursor, t: int)
    requires AllValid(v, open) && DistinctKeys(open) && 0 <= w < |open|
    requires ValidCursor(v, cl) && ValidCursor(v, cr) && cl.node != cr.node
    requires forall x :: x in open ==> x.node != cl.node && x.node != cr.node
    ensures AllValid(v, Put(Put(RemoveKey(open, open[w].node), cl), cr))
    ensures CountType(v, Put(Put(RemoveKey(open, open[w].node), cl), cr), t)
            == CountType(v, open, t) - Ind(SegmentType(v, open[w]) == t)
               + Ind(SegmentType(v, cl) == t) + Ind(SegmentType(v, cr) == t)
  {
    var open1 := RemoveKey(open, open[w].node);
    SampleCounts(v, open, w, t);
    RemoveKeyMembers(open, open[w].node);
    assert forall i :: 0 <= i < |open1| ==> open1[i] in open1;
    assert KeyIndex(open1, cl.node) < 0;
    assert Put(open1, cl) == open1 + [cl];
    CountAppend(v, open1, cl, t);
    var open2 := open1 + [cl];
    assert forall i :: 0 <= i < |open2| ==> open2[i] in open1 || open2[i] == cl;
    assert KeyIndex(open2, cr.node) < 0;
    assert Put(open2, cr) == open2 + [cr];
    CountAppend(v, open2, cr, t);
  }

  /** Two counts that agree with a tally entry by entry are that tally. */
  lemma TallyFromEntries(v: seq<NodeRec>, open: seq<Cursor>, counts: seq<int>)
    requires AllValid(v, open) && |counts| == 2
    requires counts[0] == CountType(v, open, 0) && counts[1] == CountType(v, open, 1)
    ensures counts == Tally(v, open)
  {
  }

  // ----- event times -----

  /**
   * Handled events never get later, and no open branch waits for an event
   * later than the last one handled.
   */
  ghost predicate TimesDescend(v: seq<NodeRec>, P: seq<Cursor>, open: seq<Cursor>)
  {
    (forall i, j :: 0 <= i < j < |P| ==>
       ValidCursor(v, P[i]) && ValidCursor(v, P[j]) && PendingTime(v, P[j]) <= PendingTime(v, P[i])) &&
    (|P| > 0 ==>
       ValidCursor(v, P[|P| - 1]) &&
       forall x :: x in open ==> ValidCursor(v, x) && PendingTime(v, x) <= PendingTime(v, P[|P| - 1]))
  }

  /** The picked cursor is the latest open one. */
  ghost predicate Latest(v: seq<NodeRec>, open: seq<Cursor>, w: int)
  {
    AllValid(v, open) && 0 <= w < |open| &&
    forall x :: x in open ==> ValidCursor(v, x) && PendingTime(v, x) <= PendingTime(v, open[w])
  }

  lemma TimeStep(v: seq<NodeRec>, P: seq<Cursor>, open: seq<Cursor>, w: int, open': seq<Cursor>)
    requires TimesDescend(v, P, open) && Latest(v, open, w)
    requires forall x :: x in open' ==> ValidCursor(v, x) && PendingTime(v, x) <= PendingTime(v, open[w])
    ensures TimesDescend(v, P + [open[w]], open')
  {
    assert open[w] in open;
  }

  /** The change below a change on an ordered branch is no later. */
  lemma LowerChangeNoLater(v: seq<NodeRec>, root: int, c: Cursor)
    requires RootedArena(v, root) && AllBranchesOrdered(v)
    requires ValidCursor(v, c) && c.idx >= 0 && v[c.node].parent != -1
    ensures ValidCursor(v, Cursor(c.node, c.idx - 1))
    ensures PendingTime(v, Cursor(c.node, c.idx - 1)) <= PendingTime(v, c)
  {
    var x := v[c.node];
    var s := [x.height] + x.changeTimes + [v[x.parent].height];
    assert BranchTimesOrdered(v[x.parent].height, x);
    assert s[c.idx] <= s[c.idx + 1];
    assert s[c.idx + 1] == x.changeTimes[c.idx];
    if c.idx > 0 {
      assert s[c.idx] == x.changeTimes[c.idx - 1];
    }
  }

  /** The top change of a child branch is no later than its parent. */
  lemma ChildTopNoLater(v: seq<NodeRec>, root: int, n: int, l: int)
    requires RootedArena(v, root) && AllBranchesOrdered(v)
    requires 0 <= n < |v| && 0 <= l < |v| && v[l].parent == n
    ensures ValidCursor(v, TopOf(v, l)) && ValidCursor(v, Cursor(n, -1))
    ensures PendingTime(v, TopOf(v, l)) <= PendingTime(v, Cursor(n, -1))
  {
    var x := v[l];
    var s := [x.height] + x.changeTimes + [v[n].height];
    assert BranchTimesOrdered(v[n].height, x);
    assert s[x.changeCount] <= s[x.changeCount + 1];
    if x.changeCount > 0 {
      assert s[x.changeCount] == x.changeTimes[x.changeCount - 1];
    }
  }

  // ----- what is kept after each event -----

  /** Each recorded event is the event of the cursor handled at the same step. */
  ghost predicate EventsMatch(v: seq<NodeRec>, events: seq<SBEvent>, P: seq<Cursor>)
  {
    |events| == |P| && forall i :: 0 <= i < |P| ==> ValidCursor(v, P[i]) && Matches(v, events[i], P[i])
  }

  /** After step i the open list was H[i], the frontier of P[..i+1], and the counts recorded were L[i]. */
  ghost predicate Snapshot(v: seq<NodeRec>, root: int, P: seq<Cursor>, H: seq<seq<Cursor>>, L: seq<seq<int>>, i: int)
    requires 0 <= i < |P| && |H| == |P| && |L| == |P|
  {
    AllValid(v, H[i]) && Frontier(v, root, P[..i + 1], H[i]) && |L[i]| == 2 &&
    (Tallied(v) ==> L[i] == Tally(v, H[i]))
  }

  ghost predicate History(v: seq<NodeRec>, root: int, P: seq<Cursor>, H: seq<seq<Cursor>>, L: seq<seq<int>>)
  {
    |H| == |P| && |L| == |P| && forall i :: 0 <= i < |P| ==> Snapshot(v, root, P, H, L, i)
  }

  /** Recording the state after one more event. */
  lemma HistoryExtend(v: seq<NodeRec>, root: int, P: seq<Cursor>, H: seq<seq<Cursor>>, L: seq<seq<int>>,
                       c: Cursor, open: seq<Cursor>, counts: seq<int>)
    requires History(v, root, P, H, L)
    requires AllValid(v, open) && Frontier(v, root, P + [c], open) && |counts| == 2
    requires Tallied(v) ==> counts == Tally(v, open)
    ensures History(v, root, P + [c], H + [open], L + [counts])
  {
    var P' := P + [c];
    var H' := H + [open];
    var L' := L + [counts];
    forall i | 0 <= i < |P'| ensures Snapshot(v, root, P', H', L', i) {
      if i < |P| {
        assert P'[..i + 1] == P[..i + 1];
        assert Snapshot(v, root, P, H, L, i);
      } else {
        assert P'[..i + 1] == P';
      }
    }
  }

  /** Everything the walk keeps while it runs. */
  ghost predicate Walk(v: seq<NodeRec>, root: int, P: seq<Cursor>, open: seq<Cursor>, events: seq<SBEvent>,
                       H: seq<seq<Cursor>>, L: seq<seq<int>>, counts: seq<int>)
  {
    RootedArena(v, root) && LoopState(v, root, P, open) && InOrder(v, root, P) && EventsMatch(v, events, P) &&
    History(v, root, P, H, L) && |counts| == 2 && (Tallied(v) ==> counts == Tally(v, open)) &&
    (AllBranchesOrdered(v) ==> TimesDescend(v, P, open)) &&
    (|P| > 0 ==> H[|P| - 1] == open && L[|P| - 1] == counts)
  }

  /** The walk starts at the root, with a count of one lineage of the root's type. */
  lemma WalkStart(v: seq<NodeRec>, root: int)
    requires RootedArena(v, root)
    ensures Walk(v, root, [], [Cursor(root, -1)], [], [], [],
                 [if v[root].nodeType == 0 then 1 else 0, if v[root].nodeType == 1 then 1 else 0])
  {
    InitialState(v, root);
    var open := [Cursor(root, -1)];
    CountSingle(v, Cursor(root, -1), 0);
    CountSingle(v, Cursor(root, -1), 1);
  }

  lemma EventsExtend(v: seq<NodeRec>, events: seq<SBEvent>, P: seq<Cursor>, e: SBEvent, c: Cursor)
    requires EventsMatch(v, events, P) && ValidCursor(v, c) && Matches(v, e, c)
    ensures EventsMatch(v, events + [e], P + [c])
  {
    assert forall i :: 0 <= i < |P| ==> (P + [c])[i] == P[i] && (events + [e])[i] == events[i];
  }

  /** The step all three kinds of event share once the new open list and counts are known. */
  lemma WalkClose(v: seq<NodeRec>, root: int, P: seq<Cursor>, open: seq<Cursor>, events: seq<SBEvent>,
                  H: seq<seq<Cursor>>, L: seq<seq<int>>, counts: seq<int>, w: int, e: SBEvent,
                  open': seq<Cursor>, counts': seq<int>)
    requires Walk(v, root, P, open, events, H, L, counts) && Latest(v, open, w) && Matches(v, e, open[w])
    requires LoopState(v, root, P + [open[w]], open') && |counts'| == 2
    requires Tallied(v) ==> counts' == Tally(v, open')
    requires AllBranchesOrdered(v) ==>
      forall x :: x in open' ==> ValidCursor(v, x) && PendingTime(v, x) <= PendingTime(v, open[w])
    ensures Walk(v, root, P + [open[w]], open', events + [e], H + [open'], L + [counts'], counts')
  {
    var c := open[w];
    Picked(v, root, P, open, w);
    InOrderExtend(v, root, P, c);
    HistoryExtend(v, root, P, H, L, c, open', counts');
    if AllBranchesOrdered(v) {
      TimeStep(v, P, open, w, open');
    }
    EventsExtend(v, events, P, e, c);
  }

  /** lineageCount[from]--, then lineageCount[to]++. */
  function Moved(counts: seq<int>, from: int, to: int): (r: seq<int>)
    requires 0 <= from < |counts| && 0 <= to < |counts|
    ensures |r| == |counts|
    ensures forall t :: 0 <= t < |r| ==> r[t] == counts[t] - Ind(t == from) + Ind(t == to)
  {
    var c1 := counts[from := counts[from] - 1];
    c1[to := c1[to] + 1]
  }

  /** lineageCount[t] += delta. */
  function Bumped(counts: seq<int>, t: int, delta: int): (r: seq<int>)
    requires 0 <= t < |counts|
    ensures |r| == |counts|
    ensures forall u :: 0 <= u < |r| ==> r[u] == counts[u] + (if u == t then delta else 0)
  {
    counts[t := counts[t] + delta]
  }

  lemma MigrateTally(v: seq<NodeRec>, open: seq<Cursor>, w: int, counts: seq<int>, e: SBEvent)
    requires AllValid(v, open) && DistinctKeys(open) && 0 <= w < |open| && open[w].idx >= 0
    requires Matches(v, e, open[w]) && 0 <= e.destType < 2 && 0 <= e.ty < 2
    requires |counts| == 2 && counts == Tally(v, open)
    ensures AllValid(v, Put(open, Cursor(open[w].node, open[w].idx - 1)))
    ensures Moved(counts, e.destType, e.ty) == Tally(v, Put(open, Cursor(open[w].node, open[w].idx - 1)))
  {
    MigrateCounts(v, open, w, 0);
    MigrateCounts(v, open, w, 1);
    TallyFromEntries(v, Put(open, Cursor(open[w].node, open[w].idx - 1)), Moved(counts, e.destType, e.ty));
  }

  lemma MigrateTimes(v: seq<NodeRec>, root: int, open: seq<Cursor>, w: int)
    requires RootedArena(v, root) && AllBranchesOrdered(v) && DistinctKeys(open) && Latest(v, open, w)
    requires open[w].idx >= 0 && v[open[w].node].parent != -1
    ensures forall x :: x in Put(open, Cursor(open[w].node, open[w].idx - 1)) ==>
      ValidCursor(v, x) && PendingTime(v, x) <= PendingTime(v, open[w])
  {
    LowerChangeNoLater(v, root, open[w]);
    PutMembers(open, Cursor(open[w].node, open[w].idx - 1));
  }

  lemma SampleTally(v: seq<NodeRec>, open: seq<Cursor>, w: int, counts: seq<int>, e: SBEvent)
    requires AllValid(v, open) && DistinctKeys(open) && 0 <= w < |open| && open[w].idx == -1
    requires Matches(v, e, open[w]) && 0 <= e.ty < 2
    requires |counts| == 2 && counts == Tally(v, open)
    ensures AllValid(v, RemoveKey(open, open[w].node))
    ensures Bumped(counts, e.ty, -1) == Tally(v, RemoveKey(open, open[w].node))
  {
    SampleCounts(v, open, w, 0);
    SampleCounts(v, open, w, 1);
    TallyFromEntries(v, RemoveKey(open, open[w].node), Bumped(counts, e.ty, -1));
  }

  lemma SampleTimes(v: seq<NodeRec>, open: seq<Cursor>, w: int)
    requires DistinctKeys(open) && Latest(v, open, w)
    ensures forall x :: x in RemoveKey(open, open[w].node) ==>
      ValidCursor(v, x) && PendingTime(v, x) <= PendingTime(v, open[w])
  {
    RemoveKeyMembers(open, open[w].node);
  }

  /** In a tallied tree both children's top stretches have the coalescing node's type. */
  lemma CoalesceTally(v: seq<NodeRec>, root: int, open: seq<Cursor>, w: int, counts: seq<int>, e: SBEvent)
    requires RootedArena(v, root) && Tallied(v)
    requires AllValid(v, open) && DistinctKeys(open) && 0 <= w < |open| && open[w].idx == -1
    requires |v[open[w].node].children| >= 2
    requires var n := open[w].node;
      forall x :: x in open ==> x.node != v[n].children[0] && x.node != v[n].children[1]
    requires Matches(v, e, open[w]) && 0 <= e.ty < 2
    requires |counts| == 2 && counts == Tally(v, open)
    ensures var n := open[w].node;
      var open' := Put(Put(RemoveKey(open, n), TopOf(v, v[n].children[0])), TopOf(v, v[n].children[1]));
      AllValid(v, open') && Bumped(counts, e.ty, 1) == Tally(v, open')
  {
    var n := open[w].node;
    ChildrenOf(v, root, n);
    var cl := TopOf(v, v[n].children[0]);
    var cr := TopOf(v, v[n].children[1]);
    assert cl.node != cr.node;
    CoalesceCounts(v, open, w, cl, cr, 0);
    CoalesceCounts(v, open, w, cl, cr, 1);
    assert SegmentType(v, cl) == e.ty && SegmentType(v, cr) == e.ty;
    TallyFromEntries(v, Put(Put(RemoveKey(open, n), cl), cr), Bumped(counts, e.ty, 1));
  }

  lemma CoalesceTimes(v: seq<NodeRec>, root: int, open: seq<Cursor>, w: int, open': seq<Cursor>)
    requires RootedArena(v, root) && AllBranchesOrdered(v) && Latest(v, open, w)
    requires open[w].idx == -1 && |v[open[w].node].children| >= 2
    requires var n := open[w].node;
      forall x :: x in open' <==> x == TopOf(v, v[n].children[0]) || x == TopOf(v, v[n].children[1]) || (x in open && x != open[w])
    ensures forall x :: x in open' ==> ValidCursor(v, x) && PendingTime(v, x) <= PendingTime(v, open[w])
  {
    var n := open[w].node;
    ChildrenOf(v, root, n);
    ChildTopNoLater(v, root, n, v[n].children[0]);
    ChildTopNoLater(v, root, n, v[n].children[1]);
  }

  /** What a migration does to the counts and to the pending times. */
  lemma MigrateMeasures(v: seq<NodeRec>, root: int, open: seq<Cursor>, w: int, counts: seq<int>, e: SBEvent)
    requires RootedArena(v, root) && DistinctKeys(open) && Latest(v, open, w) && Matches(v, e, open[w])
    requires open[w].idx >= 0 && v[open[w].node].parent != -1
    requires |counts| == 2 && 0 <= e.destType < 2 && 0 <= e.ty < 2
    requires Tallied(v) ==> counts == Tally(v, open)
    ensures var open' := Put(open, Cursor(open[w].node, open[w].idx - 1));
      AllValid(v, open') &&
      (Tallied(v) ==> Moved(counts, e.destType, e.ty) == Tally(v, open')) &&
      (AllBranchesOrdered(v) ==>
         forall x :: x in open' ==> ValidCursor(v, x) && PendingTime(v, x) <= PendingTime(v, open[w]))
  {
    MigrateCounts(v, open, w, 0);
    if Tallied(v) {
      MigrateTally(v, open, w, counts, e);
    }
    if AllBranchesOrdered(v) {
      MigrateTimes(v, root, open, w);
    }
  }

  lemma WalkMigrate(v: seq<NodeRec>, root: int, P: seq<Cursor>, open: seq<Cursor>, events: seq<SBEvent>,
                    H: seq<seq<Cursor>>, L: seq<seq<int>>, counts: seq<int>, w: int, e: SBEvent)
    requires Walk(v, root, P, open, events, H, L, counts) && Latest(v, open, w) && Matches(v, e, open[w])
    requires open[w].idx >= 0 && 0 <= e.destType < |counts| && 0 <= e.ty < |counts|
    ensures var counts' := Moved(counts, e.destType, e.ty);
      var open' := Put(open, Cursor(open[w].node, open[w].idx - 1));
      Walk(v, root, P + [open[w]], open', events + [e], H + [open'], L + [counts'], counts')
  {
    var c := open[w];
    var open' := Put(open, Cursor(c.node, c.idx - 1));
    MigrateStep(v, root, P, open, w);
    Picked(v, root, P, open, w);
    MigrateMeasures(v, root, open, w, counts, e);
    WalkClose(v, root, P, open, events, H, L, counts, w, e, open', Moved(counts, e.destType, e.ty));
  }

  lemma WalkSample(v: seq<NodeRec>, root: int, P: seq<Cursor>, open: seq<Cursor>, events: seq<SBEvent>,
                   H: seq<seq<Cursor>>, L: seq<seq<int>>, counts: seq<int>, w: int, e: SBEvent)
    requires Walk(v, root, P, open, events, H, L, counts) && Latest(v, open, w) && Matches(v, e, open[w])
    requires open[w].idx == -1 && IsLeaf(v[open[w].node]) && 0 <= e.ty < |counts|
    ensures var counts' := Bumped(counts, e.ty, -1);
      var open' := RemoveKey(open, open[w].node);
      Walk(v, root, P + [open[w]], open', events + [e], H + [open'], L + [counts'], counts')
  {
    var open' := RemoveKey(open, open[w].node);
    SampleStep(v, root, P, open, w);
    if Tallied(v) {
      SampleTally(v, open, w, counts, e);
    }
    SampleTimes(v, open, w);
    WalkClose(v, root, P, open, events, H, L, counts, w, e, open', Bumped(counts, e.ty, -1));
  }

  lemma WalkCoalesce(v: seq<NodeRec>, root: int, P: seq<Cursor>, open: seq<Cursor>, events: seq<SBEvent>,
                     H: seq<seq<Cursor>>, L: seq<seq<int>>, counts: seq<int>, w: int, e: SBEvent)
    requires Walk(v, root, P, open, events, H, L, counts) && Latest(v, open, w) && Matches(v, e, open[w])
    requires open[w].idx == -1 && |v[open[w].node].children| >= 2 && 0 <= e.ty < |counts|
    ensures var n := open[w].node;
      var counts' := Bumped(counts, e.ty, 1);
      var open' := Put(Put(RemoveKey(open, n), TopOf(v, v[n].children[0])), TopOf(v, v[n].children[1]));
      Walk(v, root, P + [open[w]], open', events + [e], H + [open'], L + [counts'], counts')
  {
    var n := open[w].node;
    var open' := Put(Put(RemoveKey(open, n), TopOf(v, v[n].children[0])), TopOf(v, v[n].children[1]));
    CoalesceStep(v, root, P, open, w);
    CoalesceMembers(v, root, P, open, w);
    if Tallied(v) {
      CoalesceTally(v, root, open, w, counts, e);
    }
    if AllBranchesOrdered(v) {
      CoalesceTimes(v, root, open, w, open');
    }
    WalkClose(v, root, P, open, events, H, L, counts, w, e, open', Bumped(counts, e.ty, 1));
  }

  // ----- termination -----

  /** Every cursor of the arena that could ever be handled. */
  function AllCursors(v: seq<NodeRec>): set<Cursor>
  {
    set n, i | 0 <= n < |v| && -1 <= i < v[n].changeCount :: Cursor(n, i)
  }

  function Elems(P: seq<Cursor>): set<Cursor>
  {
    set x | x in P
  }

  /** Handling a new valid cursor leaves fewer cursors to handle. */
  lemma FewerLeft(v: seq<NodeRec>, P: seq<Cursor>, c: Cursor)
    requires ValidCursor(v, c) && c !in P
    ensures |AllCursors(v) - Elems(P + [c])| < |AllCursors(v) - Elems(P)|
  {
    assert c in AllCursors(v);
    assert Elems(P + [c]) == Elems(P) + {c};
    assert AllCursors(v) - Elems(P + [c]) == (AllCursors(v) - Elems(P)) - {c};
  }

  // ----- the finished walk, read from the tips to the root -----

  /**
   * The events in time order, tips first, with the cursor each was read
   * from: every event is its cursor's event and is opened by a later one
   * (one nearer the root), the last event is the root's, no cursor occurs
   * twice, and the cursors are exactly those some cursor of the list opens.
   */
  ghost predicate EventSequence(v: seq<NodeRec>, root: int, events: seq<SBEvent>, cursors: seq<Cursor>)
  {
    |events| == |cursors| > 0 && cursors[|cursors| - 1] == Cursor(root, -1) &&
    (forall k :: 0 <= k < |cursors| ==>
       ValidCursor(v, cursors[k]) && Matches(v, events[k], cursors[k]) &&
       Starts(v, root, cursors[k], cursors[k + 1..])) &&
    (forall i, j :: 0 <= i < j < |cursors| ==> cursors[i] != cursors[j]) &&
    (forall d {:trigger ValidCursor(v, d)} :: ValidCursor(v, d) ==> (d in cursors <==> Starts(v, root, d, cursors)))
  }

  /**
   * Just below event k the open branches are opens[k], those opened by the
   * events from k on and not among them, and the counts recorded with
   * event k tally their types.
   */
  ghost predicate LineagesBelow(v: seq<NodeRec>, root: int, cursors: seq<Cursor>, opens: seq<seq<Cursor>>,
                                counts: seq<seq<int>>)
  {
    |opens| == |cursors| && |counts| == |cursors| &&
    forall k :: 0 <= k < |cursors| ==>
      AllValid(v, opens[k]) && Frontier(v, root, cursors[k..], opens[k]) && |counts[k]| == 2 &&
      (Tallied(v) ==> counts[k] == Tally(v, opens[k]))
  }

  /** Event times never decrease from the tips to the root. */
  ghost predicate Chronological(v: seq<NodeRec>, cursors: seq<Cursor>)
  {
    forall i, j :: 0 <= i < j < |cursors| ==>
      ValidCursor(v, cursors[i]) && ValidCursor(v, cursors[j]) && PendingTime(v, cursors[i]) <= PendingTime(v, cursors[j])
  }

  lemma ReversedLast(v: seq<NodeRec>, root: int, P: seq<Cursor>)
    requires InOrder(v, root, P) && |P| > 0
    ensures Reverse(P)[|P| - 1] == Cursor(root, -1)
  {
    assert P[..0] == [];
    assert StartedBefore(v, root, P, 0);
  }

  /** Whether d is opened depends only on which cursors the list holds. */
  lemma StartsSame(v: seq<NodeRec>, root: int, d: Cursor, s1: seq<Cursor>, s2: seq<Cursor>)
    requires ValidCursor(v, d)
    requires forall x :: x in s1 <==> x in s2
    ensures Starts(v, root, d, s1) == Starts(v, root, d, s2)
  {
  }

  lemma ReverseAt<T>(s: seq<T>, k: int)
    requires 0 <= k < |s|
    ensures |Reverse(s)| == |s| && Reverse(s)[k] == s[|s| - 1 - k]
  {
  }

  lemma ReversedOpening(v: seq<NodeRec>, root: int, P: seq<Cursor>, events: seq<SBEvent>, k: int)
    requires InOrder(v, root, P) && EventsMatch(v, events, P) && 0 <= k < |P|
    ensures ValidCursor(v, Reverse(P)[k]) && Matches(v, Reverse(events)[k], Reverse(P)[k])
    ensures Starts(v, root, Reverse(P)[k], Reverse(P)[k + 1..])
  {
    var i := |P| - 1 - k;
    assert |events| == |P|;
    ReverseAt(events, k);
    ReverseAt(P, k);
    assert StartedBefore(v, root, P, i);
    ReverseSuffixMembers(P, k + 1);
    StartsSame(v, root, P[i], Reverse(P)[k + 1..], P[..i]);
  }

  lemma ReversedDistinct(v: seq<NodeRec>, root: int, P: seq<Cursor>)
    requires Handled(v, root, P)
    ensures forall i, j :: 0 <= i < j < |P| ==> Reverse(P)[i] != Reverse(P)[j]
  {
    forall i, j | 0 <= i < j < |P| ensures Reverse(P)[i] != Reverse(P)[j] {
      assert Reverse(P)[i] == P[|P| - 1 - i] && Reverse(P)[j] == P[|P| - 1 - j];
    }
  }

  /** With nothing open, the handled cursors are exactly those they open. */
  lemma HandledComplete(v: seq<NodeRec>, root: int, P: seq<Cursor>, d: Cursor)
    requires Handled(v, root, P) && Frontier(v, root, P, []) && ValidCursor(v, d)
    ensures d in P <==> Starts(v, root, d, P)
  {
    if d in P {
      var i :| 0 <= i < |P| && P[i] == d;
    }
  }

  lemma ReversedComplete(v: seq<NodeRec>, root: int, P: seq<Cursor>)
    requires Handled(v, root, P) && Frontier(v, root, P, [])
    ensures forall d {:trigger ValidCursor(v, d)} :: ValidCursor(v, d) ==> (d in Reverse(P) <==> Starts(v, root, d, Reverse(P)))
  {
    ReverseSuffixMembers(P, 0);
    assert Reverse(P)[0..] == Reverse(P) && P[..|P|] == P;
    forall d | ValidCursor(v, d) ensures d in Reverse(P) <==> Starts(v, root, d, Reverse(P)) {
      HandledComplete(v, root, P, d);
      StartsSame(v, root, d, Reverse(P), P);
    }
  }

  lemma ReversedSequence(v: seq<NodeRec>, root: int, P: seq<Cursor>, events: seq<SBEvent>)
    requires Handled(v, root, P) && InOrder(v, root, P) && EventsMatch(v, events, P)
    requires Frontier(v, root, P, []) && |P| > 0
    ensures EventSequence(v, root, Reverse(events), Reverse(P))
  {
    ReversedLast(v, root, P);
    forall k | 0 <= k < |P|
      ensures ValidCursor(v, Reverse(P)[k]) && Matches(v, Reverse(events)[k], Reverse(P)[k]) &&
              Starts(v, root, Reverse(P)[k], Reverse(P)[k + 1..])
    {
      ReversedOpening(v, root, P, events, k);
    }
    ReversedDistinct(v, root, P);
    ReversedComplete(v, root, P);
  }

  lemma ReversedLineages(v: seq<NodeRec>, root: int, P: seq<Cursor>, H: seq<seq<Cursor>>, L: seq<seq<int>>)
    requires History(v, root, P, H, L)
    ensures LineagesBelow(v, root, Reverse(P), Reverse(H), Reverse(L))
  {
    forall k | 0 <= k < |P|
      ensures AllValid(v, Reverse(H)[k]) && Frontier(v, root, Reverse(P)[k..], Reverse(H)[k]) &&
              |Reverse(L)[k]| == 2 && (Tallied(v) ==> Reverse(L)[k] == Tally(v, Reverse(H)[k]))
    {
      var i := |P| - 1 - k;
      assert Snapshot(v, root, P, H, L, i);
      ReverseSuffixMembers(P, k);
      assert P[..|P| - k] == P[..i + 1];
      SameMembers(v, root, Reverse(P)[k..], P[..i + 1], H[i]);
    }
  }

  lemma ReversedChronological(v: seq<NodeRec>, P: seq<Cursor>, open: seq<Cursor>)
    requires TimesDescend(v, P, open)
    ensures Chronological(v, Reverse(P))
  {
    forall i, j | 0 <= i < j < |P|
      ensures ValidCursor(v, Reverse(P)[i]) && ValidCursor(v, Reverse(P)[j]) &&
              PendingTime(v, Reverse(P)[i]) <= PendingTime(v, Reverse(P)[j])
    {
      assert Reverse(P)[i] == P[|P| - 1 - i] && Reverse(P)[j] == P[|P| - 1 - j];
    }
  }

  /** Once no branch is open, the reversed records describe the whole tree from the tips up. */
  lemma Finished(v: seq<NodeRec>, root: int, P: seq<Cursor>, events: seq<SBEvent>,
                 H: seq<seq<Cursor>>, L: seq<seq<int>>, counts: seq<int>)
    requires Walk(v, root, P, [], events, H, L, counts) && |P| > 0
    ensures EventSequence(v, root, Reverse(events), Reverse(P))
    ensures LineagesBelow(v, root, Reverse(P), Reverse(H), Reverse(L)) && Reverse(H)[0] == []
    ensures AllBranchesOrdered(v) ==> Chronological(v, Reverse(P))
  {
    ReversedSequence(v, root, P, events);
    ReversedLineages(v, root, P, H, L);
    if AllBranchesOrdered(v) {
      ReversedChronological(v, P, []);
    }
  }
}
