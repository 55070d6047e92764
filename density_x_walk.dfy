// The invariant of the root-to-tips walk behind the density of a tree whose
// type changes are nodes of their own (SeedbankNodeX): which nodes have been
// handled, which are live, the lineage counts recorded after each event and
// the order of event times. The set of live nodes is a sequence without
// repeats, in the order the nodes were added, and may hold null (-1).

module DensityXWalk {
  import opened SeedbankTrees
  import opened SeedbankTreesX
  import opened DensityEvents
  import opened DensityWalk

  // ----- the set of live nodes -----

  predicate Distinct(s: seq<int>)
  {
    forall i, j :: 0 <= i < j < |s| ==> s[i] != s[j]
  }

  /** Set.add: x joins the set unless it is already there. */
  function SetAdd(s: seq<int>, x: int): (r: seq<int>)
    ensures forall y :: y in r <==> y in s || y == x
    ensures Distinct(s) ==> Distinct(r)
    ensures x !in s ==> r == s + [x]
  {
    if x in s then s else s + [x]
  }

  /** Set.remove: x leaves the set, the others keep their order. */
  function SetRemove(s: seq<int>, x: int): (r: seq<int>)
    ensures forall y :: y in r <==> y in s && y != x
    decreases |s|
  {
    if |s| == 0 then []
    else if s[0] == x then SetRemove(s[1..], x)
    else [s[0]] + SetRemove(s[1..], x)
  }

  lemma TailDistinct(s: seq<int>)
    requires Distinct(s) && |s| > 0
    ensures Distinct(s[1..]) && s[0] !in s[1..]
  {
    var tail := s[1..];
    forall i, j | 0 <= i < j < |tail| ensures tail[i] != tail[j] {
      assert tail[i] == s[i + 1] && tail[j] == s[j + 1];
    }
    forall j | 0 <= j < |tail| ensures tail[j] != s[0] {
      assert tail[j] == s[j + 1];
    }
  }

  /** Removing from a set without repeats leaves a set without repeats. */
  lemma {:induction false} SetRemoveDistinct(s: seq<int>, x: int)
    requires Distinct(s)
    ensures Distinct(SetRemove(s, x))
    decreases |s|
  {
    if |s| > 0 {
      TailDistinct(s);
      SetRemoveDistinct(s[1..], x);
      if s[0] != x {
        var rest := SetRemove(s[1..], x);
        assert s[0] !in rest;
        var r := [s[0]] + rest;
        forall i, j | 0 <= i < j < |r| ensures r[i] != r[j] {
          if i == 0 {
            assert r[j] == rest[j - 1];
          } else {
            assert r[i] == rest[i - 1] && r[j] == rest[j - 1];
          }
        }
      }
    }
  }

  /**
   * What the event of a node makes live: both children of a coalescence,
   * the daughter of a type change, nothing for a sample; null (-1) where
   * the child is missing.
   */
  function Opened(n: NodeX): seq<int>
  {
    if n.event.Coalescent? then [GetLeft(n.children), GetRight(n.children)]
    else if n.event.Migration? then [GetLeft(n.children)]
    else []
  }

  /** The live set after the event of node n: n removed, what it opens added in order. */
  function LiveAfter(v: seq<NodeX>, live: seq<int>, n: int): (r: seq<int>)
    requires 0 <= n < |v|
    ensures forall y :: y in r <==> (y in live && y != n) || y in Opened(v[n])
  {
    var rest := SetRemove(live, n);
    if v[n].event.Coalescent? then SetAdd(SetAdd(rest, GetLeft(v[n].children)), GetRight(v[n].children))
    else if v[n].event.Migration? then SetAdd(rest, GetLeft(v[n].children))
    else rest
  }

  lemma LiveAfterDistinct(v: seq<NodeX>, live: seq<int>, n: int)
    requires 0 <= n < |v| && Distinct(live)
    ensures Distinct(LiveAfter(v, live, n))
  {
    SetRemoveDistinct(live, n);
  }

  /**
   * The counts each kind of event leaves: one more lineage of a
   * coalescence's type, one fewer of a sample's, one moved from the type
   * above a change to the type below it.
   */
  function CountsAfter(counts: seq<int>, e: SBEvent): (r: seq<int>)
    requires |counts| == 2 && 0 <= e.ty < 2 && (e.kind == Migrate ==> 0 <= e.destType < 2)
  {
    match e.kind
    case Coalesce => Bumped(counts, e.ty, 1)
    case Sample => Bumped(counts, e.ty, -1)
    case Migrate => Moved(counts, e.destType, e.ty)
  }

  /** On a tree whose counts are exact, the counts an event leaves are those of the live set it leaves. */
  lemma CountsAfterTally(v: seq<NodeX>, root: int, live: seq<int>, n: int, e: SBEvent, counts: seq<int>)
    requires RootedX(v, root) && LocallyTyped(v) && Distinct(live) && n in live && MatchesX(v, e, n) && NodeWellX(v, n)
    requires forall c :: c in Opened(v[n]) ==> c !in live
    requires counts == TallyX(v, live) && 0 <= e.ty < 2 && (e.kind == Migrate ==> 0 <= e.destType < 2)
    ensures CountsAfter(counts, e) == TallyX(v, LiveAfter(v, live, n))
  {
    var c := CountsAfter(counts, e);
    var T := TallyX(v, LiveAfter(v, live, n));
    TallyStepX(v, root, live, n, 0);
    TallyStepX(v, root, live, n, 1);
    EntryAfter(v, n, e, counts, 0);
    EntryAfter(v, n, e, counts, 1);
    assert c[0] == T[0];
    assert c[1] == T[1];
  }

  /** Entry t of the counts an event leaves: the node's own lineage goes, the lineages it opens come. */
  lemma EntryAfter(v: seq<NodeX>, n: int, e: SBEvent, counts: seq<int>, t: int)
    requires MatchesX(v, e, n) && |counts| == 2 && 0 <= t < 2
    requires 0 <= e.ty < 2 && (e.kind == Migrate ==> 0 <= e.destType < 2)
    ensures CountsAfter(counts, e)[t] == counts[t] - Ind(v[n].nodeType == t) + Gain(v[n], t)
  {
  }

  /** Every non-null node a node opens is one of its children. */
  lemma OpenedAreChildren(v: seq<NodeX>, root: int, n: int)
    requires RootedX(v, root) && 0 <= n < |v|
    ensures forall c :: c in Opened(v[n]) && c != -1 ==> 0 <= c < |v| && v[c].parent == n
  {
    var ch := v[n].children;
    if |ch| > 0 {
      assert v[ch[0]].parent == n;
    }
    if |ch| > 1 {
      assert v[ch[1]].parent == n;
    }
  }

  // ----- lineage counts -----

  /** 1 when x is a node of type t, 0 otherwise (null has no type). */
  function IsOfType(v: seq<NodeX>, x: int, t: int): int
  {
    if 0 <= x < |v| && v[x].nodeType == t then 1 else 0
  }

  /** Number of nodes of type t in s. */
  function CountT(v: seq<NodeX>, s: seq<int>, t: int): int
    decreases |s|
  {
    if |s| == 0 then 0 else IsOfType(v, s[0], t) + CountT(v, s[1..], t)
  }

  /** The lineage counts [dormant, active] of a set of live nodes. */
  function TallyX(v: seq<NodeX>, s: seq<int>): seq<int>
  {
    [CountT(v, s, 0), CountT(v, s, 1)]
  }

  lemma {:induction false} CountAppend(v: seq<NodeX>, s: seq<int>, x: int, t: int)
    ensures CountT(v, s + [x], t) == CountT(v, s, t) + IsOfType(v, x, t)
    decreases |s|
  {
    if |s| > 0 {
      assert (s + [x])[1..] == s[1..] + [x];
      CountAppend(v, s[1..], x, t);
    } else {
      assert [x][1..] == [];
    }
  }

  lemma {:induction false} CountRemove(v: seq<NodeX>, s: seq<int>, x: int, t: int)
    requires Distinct(s)
    ensures CountT(v, SetRemove(s, x), t) == CountT(v, s, t) - (if x in s then IsOfType(v, x, t) else 0)
    decreases |s|
  {
    if |s| > 0 {
      var tail := s[1..];
      TailDistinct(s);
      assert x in s <==> x == s[0] || x in tail by {
        assert s == [s[0]] + tail;
      }
      CountRemove(v, tail, x, t);
      if s[0] != x {
        var rest := SetRemove(tail, x);
        assert ([s[0]] + rest)[1..] == rest;
      }
    }
  }

  /** The type each node a node opens counts under, once per opened node. */
  function Gain(n: NodeX, t: int): int
  {
    if n.event.Coalescent? then 2 * Ind(n.nodeType == t)
    else if n.event.Migration? then Ind(n.nodeToType == t)
    else 0
  }

  // ----- trees on which the walk cannot fail -----

  /** The checks of one round pass at node n: its types index the counts, and it opens two different real nodes, none a dummy. */
  predicate NodeWellX(v: seq<NodeX>, n: int)
    requires 0 <= n < |v|
  {
    0 <= v[n].nodeType < 2 &&
    (v[n].event.Migration? ==> 0 <= v[n].nodeToType < 2) &&
    (v[n].event.Coalescent? ==> GetLeft(v[n].children) != GetRight(v[n].children)) &&
    forall c :: c in Opened(v[n]) ==> 0 <= c < |v| && !v[c].event.Dummy?
  }

  /** Every node that is no dummy passes its round's checks, and the root is no dummy. */
  predicate WellX(v: seq<NodeX>, root: int)
  {
    0 <= root < |v| && !v[root].event.Dummy? &&
    forall n :: 0 <= n < |v| && !v[n].event.Dummy? ==> NodeWellX(v, n)
  }

  /** The trees on which the counts are exact: well formed and with every child of a parent's child type. */
  predicate Counted(v: seq<NodeX>, root: int)
  {
    ShapedX(v) && WellX(v, root) && LocallyTyped(v)
  }

  /** No live entry is null or a dummy. */
  predicate LiveWell(v: seq<NodeX>, live: seq<int>)
  {
    forall x :: x in live ==> 0 <= x < |v| && !v[x].event.Dummy?
  }

  // ----- what has been handled -----

  /**
   * P holds the handled nodes and live the live ones: every handled node
   * and every live non-null node is the root or a child of a handled one,
   * no handled node is live, whatever a handled node opened is handled or
   * live, and the root is handled or live.
   */
  ghost predicate FrontierX(v: seq<NodeX>, root: int, P: seq<int>, live: seq<int>)
  {
    0 <= root < |v| && (root in P || root in live) &&
    (forall x :: x in P ==> 0 <= x < |v| && x !in live) &&
    (forall x {:trigger x in P, v[x]} :: x in P && 0 <= x < |v| ==> x == root || v[x].parent in P) &&
    (forall x :: x in live ==> -1 <= x < |v| && (x == -1 || x == root || v[x].parent in P)) &&
    (forall x, c :: x in P && 0 <= x < |v| && c in Opened(v[x]) ==> c in P || c in live)
  }

  ghost predicate LoopStateX(v: seq<NodeX>, root: int, P: seq<int>, live: seq<int>)
  {
    RootedX(v, root) && Distinct(P) && Distinct(live) && FrontierX(v, root, P, live)
  }

  /** The frontier depends on which nodes were handled, not on their order. */
  lemma SameMembersX(v: seq<NodeX>, root: int, A: seq<int>, B: seq<int>, live: seq<int>)
    requires forall x :: x in A <==> x in B
    ensures FrontierX(v, root, A, live) == FrontierX(v, root, B, live)
  {
  }

  /** The live node the walk picks: the latest, and every live entry is a real node. */
  ghost predicate LatestX(v: seq<NodeX>, live: seq<int>, w: int)
  {
    0 <= w < |live| && 0 <= live[w] < |v| &&
    forall x :: x in live ==> 0 <= x < |v| && v[x].height <= v[live[w]].height
  }

  /** What an opened node is: null, or a child of n that is not yet live. */
  lemma OpenedFresh(v: seq<NodeX>, root: int, P: seq<int>, live: seq<int>, n: int)
    requires LoopStateX(v, root, P, live) && n in live && n != -1
    ensures 0 <= n < |v| && n !in P
    ensures forall c :: c in Opened(v[n]) && c != -1 ==> 0 <= c < |v| && v[c].parent == n && c !in live && c !in P && c != n
  {
    OpenedAreChildren(v, root, n);
    assert v[root].parent == -1;
    assert n != root ==> v[n].parent in P;
  }

  /** Handling the live node n keeps the frontier. */
  lemma FrontierStepX(v: seq<NodeX>, root: int, P: seq<int>, live: seq<int>, n: int)
    requires LoopStateX(v, root, P, live) && n in live && n != -1
    ensures 0 <= n < |v| && n !in P
    ensures LoopStateX(v, root, P + [n], LiveAfter(v, live, n))
  {
    OpenedFresh(v, root, P, live, n);
    var P' := P + [n];
    var live' := LiveAfter(v, live, n);
    assert forall x :: x in P' <==> x in P || x == n;
    LiveAfterDistinct(v, live, n);
    forall x | x in P' ensures 0 <= x < |v| && x !in live' && (x == root || v[x].parent in P') {
    }
    forall x | x in live' ensures -1 <= x < |v| && (x == -1 || x == root || v[x].parent in P') {
    }
    forall x, c | x in P' && 0 <= x < |v| && c in Opened(v[x]) ensures c in P' || c in live' {
    }
  }

  /** The counts after handling n: n's lineage goes, the lineages it opens come. */
  lemma TallyStepX(v: seq<NodeX>, root: int, live: seq<int>, n: int, t: int)
    requires RootedX(v, root) && LocallyTyped(v) && Distinct(live) && n in live && 0 <= n < |v| && NodeWellX(v, n)
    requires forall c :: c in Opened(v[n]) ==> c !in live
    ensures CountT(v, LiveAfter(v, live, n), t) == CountT(v, live, t) - Ind(v[n].nodeType == t) + Gain(v[n], t)
  {
    OpenedAreChildren(v, root, n);
    var rest := SetRemove(live, n);
    CountRemove(v, live, n, t);
    var ch := v[n].children;
    if v[n].event.Coalescent? {
      var l, r := GetLeft(ch), GetRight(ch);
      assert l in Opened(v[n]) && r in Opened(v[n]);
      assert l !in rest;
      CountAppend(v, rest, l, t);
      assert r !in rest + [l];
      CountAppend(v, rest + [l], r, t);
      assert v[l].nodeType == v[n].nodeType && v[r].nodeType == v[n].nodeType;
    } else if v[n].event.Migration? {
      var l := GetLeft(ch);
      assert l in Opened(v[n]);
      CountAppend(v, rest, l, t);
      assert v[l].nodeType == v[n].nodeToType;
    }
  }

  // ----- event times -----

  /** Handled events never get later, and no live node is later than the last one handled. */
  ghost predicate TimesDescendX(v: seq<NodeX>, P: seq<int>, live: seq<int>)
  {
    HandledDescendX(v, P) &&
    (|P| > 0 ==>
       0 <= P[|P| - 1] < |v| && forall x :: x in live && 0 <= x < |v| ==> v[x].height <= v[P[|P| - 1]].height)
  }

  /** The handled nodes are nodes of the tree, each no later than the one before. */
  ghost predicate HandledDescendX(v: seq<NodeX>, P: seq<int>)
  {
    forall i, j :: 0 <= i < j < |P| ==> 0 <= P[i] < |v| && 0 <= P[j] < |v| && v[P[j]].height <= v[P[i]].height
  }

  lemma TimeStepX(v: seq<NodeX>, root: int, P: seq<int>, live: seq<int>, w: int)
    requires RootedX(v, root) && LocallyTimed(v) && TimesDescendX(v, P, live) && LatestX(v, live, w)
    ensures TimesDescendX(v, P + [live[w]], LiveAfter(v, live, live[w]))
  {
    var n := live[w];
    assert n in live;
    LiveAfterBelow(v, root, live, w);
    HandledExtendX(v, P, n);
    assert (P + [n])[|P|] == n;
  }

  /** A node no later than the last handled one extends the descending order. */
  lemma HandledExtendX(v: seq<NodeX>, P: seq<int>, n: int)
    requires HandledDescendX(v, P) && 0 <= n < |v|
    requires |P| > 0 ==> 0 <= P[|P| - 1] < |v| && v[n].height <= v[P[|P| - 1]].height
    ensures HandledDescendX(v, P + [n])
  {
    var P' := P + [n];
    forall i, j | 0 <= i < j < |P'| ensures 0 <= P'[i] < |v| && 0 <= P'[j] < |v| && v[P'[j]].height <= v[P'[i]].height {
      assert P'[i] == P[i];
      if j == |P| {
        assert P'[j] == n;
        if i < |P| - 1 {
          assert v[P[|P| - 1]].height <= v[P[i]].height;
        }
      } else {
        assert P'[j] == P[j];
      }
    }
  }

  /** After the latest live node is handled, no live node is higher than it. */
  lemma LiveAfterBelow(v: seq<NodeX>, root: int, live: seq<int>, w: int)
    requires RootedX(v, root) && LocallyTimed(v) && LatestX(v, live, w)
    ensures forall x :: x in LiveAfter(v, live, live[w]) && 0 <= x < |v| ==> v[x].height <= v[live[w]].height
  {
    OpenedAreChildren(v, root, live[w]);
  }

  // ----- what is kept after each event -----

  /** The event of a live node: a sample or coalescence of the node's type, or a type change from nodeType (above) to nodeToType (below). A dummy has none. */
  predicate MatchesX(v: seq<NodeX>, e: SBEvent, n: int)
  {
    0 <= n < |v| && e.node == n && e.time == v[n].height &&
    (if v[n].event.Sample? then e.kind == Kind.Sample && e.ty == v[n].nodeType
     else if v[n].event.Coalescent? then e.kind == Coalesce && e.ty == v[n].nodeType
     else if v[n].event.Migration? then e.kind == Migrate && e.destType == v[n].nodeType && e.ty == v[n].nodeToType
     else false)
  }

  ghost predicate EventsMatchX(v: seq<NodeX>, events: seq<SBEvent>, P: seq<int>)
  {
    |events| == |P| && forall i :: 0 <= i < |P| ==> MatchesX(v, events[i], P[i])
  }

  /** After step i the live set was H[i], the frontier of P[..i+1], and the counts recorded were L[i]. */
  ghost predicate SnapshotX(v: seq<NodeX>, root: int, P: seq<int>, H: seq<seq<int>>, L: seq<seq<int>>, i: int)
    requires 0 <= i < |P| && |H| == |P| && |L| == |P|
  {
    LiveRecordX(v, root, P[..i + 1], H[i], L[i])
  }

  /**
   * With the nodes in `handled` handled, the live set was `live`, without
   * repeats and the frontier of handled, and the counts recorded were
   * `count`: its tally on a well-formed, well-typed tree.
   */
  ghost predicate LiveRecordX(v: seq<NodeX>, root: int, handled: seq<int>, live: seq<int>, count: seq<int>)
  {
    Distinct(live) && FrontierX(v, root, handled, live) && |count| == 2 &&
    (WellX(v, root) ==> LiveWell(v, live)) && (Counted(v, root) ==> count == TallyX(v, live))
  }

  ghost predicate HistoryX(v: seq<NodeX>, root: int, P: seq<int>, H: seq<seq<int>>, L: seq<seq<int>>)
  {
    |H| == |P| && |L| == |P| && forall i :: 0 <= i < |P| ==> SnapshotX(v, root, P, H, L, i)
  }

  lemma HistoryExtendX(v: seq<NodeX>, root: int, P: seq<int>, H: seq<seq<int>>, L: seq<seq<int>>,
                       n: int, live: seq<int>, counts: seq<int>)
    requires HistoryX(v, root, P, H, L)
    requires Distinct(live) && FrontierX(v, root, P + [n], live) && |counts| == 2
    requires WellX(v, root) ==> LiveWell(v, live)
    requires Counted(v, root) ==> counts == TallyX(v, live)
    ensures HistoryX(v, root, P + [n], H + [live], L + [counts])
  {
    var P' := P + [n];
    var H' := H + [live];
    var L' := L + [counts];
    forall i | 0 <= i < |P'| ensures SnapshotX(v, root, P', H', L', i) {
      if i < |P| {
        assert P'[..i + 1] == P[..i + 1];
        assert SnapshotX(v, root, P, H, L, i);
      } else {
        assert P'[..i + 1] == P';
      }
    }
  }

  lemma EventsExtendX(v: seq<NodeX>, events: seq<SBEvent>, P: seq<int>, e: SBEvent, n: int)
    requires EventsMatchX(v, events, P) && MatchesX(v, e, n)
    ensures EventsMatchX(v, events + [e], P + [n])
  {
    assert forall i :: 0 <= i < |P| ==> (P + [n])[i] == P[i] && (events + [e])[i] == events[i];
  }

  /** Everything the walk keeps while it runs. */
  ghost predicate WalkX(v: seq<NodeX>, root: int, P: seq<int>, live: seq<int>, events: seq<SBEvent>,
                        H: seq<seq<int>>, L: seq<seq<int>>, counts: seq<int>)
  {
    LoopStateX(v, root, P, live) && EventsMatchX(v, events, P) && HistoryX(v, root, P, H, L) &&
    |counts| == 2 && (Counted(v, root) ==> counts == TallyX(v, live)) &&
    (WellX(v, root) ==> LiveWell(v, live)) &&
    (LocallyTimed(v) ==> TimesDescendX(v, P, live)) &&
    (|P| > 0 ==> P[0] == root && H[|P| - 1] == live && L[|P| - 1] == counts)
  }

  /** The walk starts with the root live and one lineage of the root's type. */
  lemma WalkStartX(v: seq<NodeX>, root: int)
    requires RootedX(v, root)
    ensures WalkX(v, root, [], [root], [], [], [],
                  [if v[root].nodeType == 0 then 1 else 0, if v[root].nodeType == 1 then 1 else 0])
  {
    assert [root][1..] == [];
    assert CountT(v, [root], 0) == IsOfType(v, root, 0);
    assert CountT(v, [root], 1) == IsOfType(v, root, 1);
  }

  /** The step every kind of event shares once the new counts are known to be the tally. */
  lemma WalkCloseX(v: seq<NodeX>, root: int, P: seq<int>, live: seq<int>, events: seq<SBEvent>,
                   H: seq<seq<int>>, L: seq<seq<int>>, counts: seq<int>, w: int, e: SBEvent, counts': seq<int>)
    requires WalkX(v, root, P, live, events, H, L, counts) && LatestX(v, live, w) && MatchesX(v, e, live[w])
    requires |counts'| == 2 && (Counted(v, root) ==> counts' == TallyX(v, LiveAfter(v, live, live[w])))
    ensures WalkX(v, root, P + [live[w]], LiveAfter(v, live, live[w]), events + [e],
                  H + [LiveAfter(v, live, live[w])], L + [counts'], counts')
  {
    var n := live[w];
    var live' := LiveAfter(v, live, n);
    assert n in live;
    FrontierStepX(v, root, P, live, n);
    HistoryExtendX(v, root, P, H, L, n, live', counts');
    EventsExtendX(v, events, P, e, n);
    if LocallyTimed(v) {
      TimeStepX(v, root, P, live, w);
    }
    if WellX(v, root) {
      assert NodeWellX(v, n);
    }
  }

  // ----- the finished walk, read from the tips to the root -----

  /** The indices 0 .. n-1. */
  function AllNodes(n: nat): (r: set<int>)
    ensures forall i :: i in r <==> 0 <= i < n
  {
    if n == 0 then {} else AllNodes(n - 1) + {n - 1}
  }

  function ElemsX(P: seq<int>): set<int>
  {
    set x | x in P
  }

  /** Handling a new node leaves fewer nodes to handle. */
  lemma FewerLeftX(v: seq<NodeX>, P: seq<int>, n: int)
    requires 0 <= n < |v| && n !in P
    ensures |AllNodes(|v|) - ElemsX(P + [n])| < |AllNodes(|v|) - ElemsX(P)|
  {
    assert n in AllNodes(|v|);
    assert ElemsX(P + [n]) == ElemsX(P) + {n};
    assert AllNodes(|v|) - ElemsX(P + [n]) == (AllNodes(|v|) - ElemsX(P)) - {n};
  }

  /**
   * The recorded events, tips first: event k is the event of nodes[k], the
   * root's comes last, no node comes twice, and the nodes listed are closed
   * under what their events open and each is the root or a child of a listed one.
   */
  ghost predicate EventSequenceX(v: seq<NodeX>, root: int, events: seq<SBEvent>, nodes: seq<int>)
  {
    |events| == |nodes| > 0 && nodes[|nodes| - 1] == root && Distinct(nodes) &&
    (forall k :: 0 <= k < |nodes| ==> MatchesX(v, events[k], nodes[k])) &&
    FrontierX(v, root, nodes, [])
  }

  /**
   * Just below event k the live nodes are opens[k], those opened by the
   * events from k on and not among them, and on a well-formed well-typed
   * tree the counts recorded with event k tally their types.
   */
  ghost predicate LineagesBelowX(v: seq<NodeX>, root: int, nodes: seq<int>, opens: seq<seq<int>>, counts: seq<seq<int>>)
  {
    |opens| == |nodes| && |counts| == |nodes| &&
    forall k :: 0 <= k < |nodes| ==> LiveRecordX(v, root, nodes[k..], opens[k], counts[k])
  }

  /** Event times never decrease from the tips to the root. */
  ghost predicate ChronologicalX(v: seq<NodeX>, nodes: seq<int>)
  {
    forall i, j :: 0 <= i < j < |nodes| ==> 0 <= nodes[i] < |v| && 0 <= nodes[j] < |v| && v[nodes[i]].height <= v[nodes[j]].height
  }

  lemma ReverseDistinct(P: seq<int>)
    requires Distinct(P)
    ensures Distinct(Reverse(P))
  {
    var R := Reverse(P);
    forall i, j | 0 <= i < j < |R| ensures R[i] != R[j] {
      assert R[i] == P[|P| - 1 - i] && R[j] == P[|P| - 1 - j];
    }
  }

  lemma ReversedSequenceX(v: seq<NodeX>, root: int, P: seq<int>, events: seq<SBEvent>)
    requires LoopStateX(v, root, P, []) && EventsMatchX(v, events, P) && |P| > 0 && P[0] == root
    ensures EventSequenceX(v, root, Reverse(events), Reverse(P))
  {
    ReverseMatchesX(v, events, P);
    ReverseDistinct(P);
    ReverseFrontierX(v, root, P);
    assert Reverse(P)[|P| - 1] == P[0];
  }

  lemma ReverseMatchesX(v: seq<NodeX>, events: seq<SBEvent>, P: seq<int>)
    requires EventsMatchX(v, events, P)
    ensures |Reverse(events)| == |Reverse(P)|
    ensures forall k :: 0 <= k < |P| ==> MatchesX(v, Reverse(events)[k], Reverse(P)[k])
  {
    forall k | 0 <= k < |P| ensures MatchesX(v, Reverse(events)[k], Reverse(P)[k]) {
      assert Reverse(P)[k] == P[|P| - 1 - k];
    }
  }

  lemma ReverseFrontierX(v: seq<NodeX>, root: int, P: seq<int>)
    requires FrontierX(v, root, P, [])
    ensures FrontierX(v, root, Reverse(P), [])
  {
    var R := Reverse(P);
    ReverseSuffixMembers(P, 0);
    assert R[0..] == R && P[..|P|] == P;
    SameMembersX(v, root, R, P, []);
  }

  lemma ReversedLineagesX(v: seq<NodeX>, root: int, P: seq<int>, H: seq<seq<int>>, L: seq<seq<int>>)
    requires HistoryX(v, root, P, H, L)
    ensures LineagesBelowX(v, root, Reverse(P), Reverse(H), Reverse(L))
  {
    forall k | 0 <= k < |P| ensures LiveRecordX(v, root, Reverse(P)[k..], Reverse(H)[k], Reverse(L)[k]) {
      ReversedSnapshotX(v, root, P, H, L, k);
    }
  }

  lemma ReverseAt<T>(s: seq<T>, k: int)
    requires 0 <= k < |s|
    ensures Reverse(s)[k] == s[|s| - 1 - k]
  {
  }

  /** Snapshot |P| - 1 - k of the walk is lineage record k of the reversed sequence. */
  lemma ReversedSnapshotX(v: seq<NodeX>, root: int, P: seq<int>, H: seq<seq<int>>, L: seq<seq<int>>, k: int)
    requires 0 <= k < |P| && |H| == |P| && |L| == |P| && SnapshotX(v, root, P, H, L, |P| - 1 - k)
    ensures LiveRecordX(v, root, Reverse(P)[k..], Reverse(H)[k], Reverse(L)[k])
  {
    var i := |P| - 1 - k;
    ReverseAt(H, k);
    ReverseAt(L, k);
    ReverseSuffixMembers(P, k);
    assert P[..|P| - k] == P[..i + 1];
    RecordRenamedX(v, root, Reverse(P)[k..], P[..i + 1], H[i], Reverse(H)[k], L[i], Reverse(L)[k]);
  }

  /** A record depends on the handled nodes only through which nodes they are. */
  lemma RecordRenamedX(v: seq<NodeX>, root: int, A: seq<int>, B: seq<int>,
                       live: seq<int>, live': seq<int>, count: seq<int>, count': seq<int>)
    requires (forall x :: x in A <==> x in B) && live == live' && count == count'
    requires LiveRecordX(v, root, B, live, count)
    ensures LiveRecordX(v, root, A, live', count')
  {
    SameMembersX(v, root, A, B, live);
  }

  lemma ReversedChronologicalX(v: seq<NodeX>, P: seq<int>, live: seq<int>)
    requires TimesDescendX(v, P, live)
    ensures ChronologicalX(v, Reverse(P))
  {
    forall i, j | 0 <= i < j < |P|
      ensures 0 <= Reverse(P)[i] < |v| && 0 <= Reverse(P)[j] < |v| && v[Reverse(P)[i]].height <= v[Reverse(P)[j]].height
    {
      assert Reverse(P)[i] == P[|P| - 1 - i] && Reverse(P)[j] == P[|P| - 1 - j];
    }
  }

  /** Once nothing is live, the reversed records describe the walked tree from the tips up. */
  lemma FinishedX(v: seq<NodeX>, root: int, P: seq<int>, events: seq<SBEvent>,
                  H: seq<seq<int>>, L: seq<seq<int>>, counts: seq<int>)
    requires WalkX(v, root, P, [], events, H, L, counts) && |P| > 0
    ensures EventSequenceX(v, root, Reverse(events), Reverse(P))
    ensures LineagesBelowX(v, root, Reverse(P), Reverse(H), Reverse(L)) && Reverse(H)[0] == []
    ensures LocallyTimed(v) ==> ChronologicalX(v, Reverse(P))
  {
    ReversedSequenceX(v, root, P, events);
    ReversedLineagesX(v, root, P, H, L);
    assert Reverse(H)[0] == H[|P| - 1] == [];
    if LocallyTimed(v) {
      ReversedChronologicalX(v, P, []);
    }
  }
}
