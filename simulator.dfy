// The seedbank coalescent simulator that builds the starting tree of
// SeedbankTreeInitializer: the samples enter at their heights, active
// lineages coalesce in pairs and lineages move between the dormant (0) and
// active (1) demes until one lineage is left, which becomes the root.
// SeedbankTreeInitialiser runs the same loop; it differs after the loop
// (it clears the changes of the root's left child) and in initStateNodes
// (it also derives lambdas and indicators): see initialiser.dfy.
//
// Nodes live in an arena indexed by their number, and the Java node lists
// hold node numbers. The random numbers are supplied by the caller, one
// Draw per iteration of the simulation loop.

module Simulation {
  import opened Wrappers
  import opened SeedbankNodes
  import opened SeedbankTrees
  import opened TransitionModels
  import opened Sorting

  /**
   * The random numbers one iteration may use: the exponential waiting time,
   * the uniform that picks the event, and two integers standing for the
   * Randomizer.nextInt draws, reduced modulo the bound they are drawn under.
   */
  datatype Draw = Draw(wait: real, u: real, pick: nat, pick2: nat)

  /** coalesceProp[0], migrationProp[0] (dormant lineages becoming active) and migrationProp[1] (active lineages becoming dormant). */
  datatype Propensities = Propensities(coalesce: real, fromDormant: real, fromActive: real)

  function Total(p: Propensities): real
  {
    p.coalesce + p.fromActive + p.fromDormant
  }

  /**
   * updatePropensities with kActive active and kDormant dormant lineages.
   * The coalescence propensity is k(k-1)/2: the division by the active
   * population size on the line before is overwritten.
   */
  function UpdatePropensities(m: TransitionModel, kActive: nat, kDormant: nat): (p: Propensities)
    ensures p.coalesce >= 0.0 && (p.coalesce > 0.0 <==> kActive >= 2)
    ensures kActive == 0 ==> p.coalesce == 0.0 && p.fromActive == 0.0
    ensures kDormant == 0 ==> p.fromDormant == 0.0
    ensures m.rate.value >= 0.0 && m.K.value >= 0.0 ==> p.fromActive >= 0.0 && p.fromDormant >= 0.0
    ensures m.rate.value > 0.0 && m.K.value > 0.0 ==>
      (kActive >= 1 ==> p.fromActive > 0.0) && (kDormant >= 1 ==> p.fromDormant > 0.0)
  {
    var pairs := kActive * (kActive - 1);
    var fromDormant := kDormant as real * BackwardRate(m, 0, 1);
    var fromActive := kActive as real * BackwardRate(m, 1, 0);
    PairCount(kActive);
    RateProduct(m.rate.value, m.K.value);
    LineageRate(kDormant, BackwardRate(m, 0, 1));
    LineageRate(kActive, BackwardRate(m, 1, 0));
    Propensities(pairs as real / 2.0, fromDormant, fromActive)
  }

  /**
   * Propensities that match the lineage counts: never negative, a
   * coalescence propensity exactly from two active lineages on, no
   * migration out of an empty deme, and a positive total exactly when some
   * lineage is left.
   */
  predicate MatchesLineages(p: Propensities, kActive: nat, kDormant: nat)
  {
    && p.coalesce >= 0.0 && p.fromDormant >= 0.0 && p.fromActive >= 0.0
    && (p.coalesce > 0.0 <==> kActive >= 2)
    && (kActive == 0 ==> p.fromActive == 0.0)
    && (kDormant == 0 ==> p.fromDormant == 0.0)
    && (Total(p) > 0.0 <==> kActive + kDormant >= 1)
  }

  /** With a positive rate and K, updatePropensities matches the lineage counts. */
  lemma PropensitiesMatch(m: TransitionModel, kActive: nat, kDormant: nat)
    requires PositiveRates(m)
    ensures MatchesLineages(UpdatePropensities(m, kActive, kDormant), kActive, kDormant)
  {
    TotalPositive(UpdatePropensities(m, kActive, kDormant), kActive, kDormant);
  }

  /** Non-negative propensities that are positive whenever their lineages exist sum to a positive total exactly when some lineage exists. */
  lemma TotalPositive(p: Propensities, kActive: nat, kDormant: nat)
    ensures p.coalesce >= 0.0 && p.fromActive >= 0.0 && p.fromDormant >= 0.0 &&
      (kActive >= 1 ==> p.fromActive > 0.0) && (kDormant >= 1 ==> p.fromDormant > 0.0) &&
      (kActive == 0 ==> p.coalesce == 0.0 && p.fromActive == 0.0) && (kDormant == 0 ==> p.fromDormant == 0.0)
      ==> (Total(p) > 0.0 <==> kActive + kDormant >= 1)
  {
  }

  /** k(k-1) is never negative, and positive exactly from two lineages on. */
  lemma PairCount(k: nat)
    ensures k * (k - 1) >= 0 && (k * (k - 1) > 0 <==> k >= 2)
  {
    if k >= 2 {
      assert k * (k - 1) >= k;
    }
  }

  /** The sign of the product of the seedbank rate and the ratio K. */
  lemma RateProduct(rate: real, K: real)
    ensures rate >= 0.0 && K >= 0.0 ==> rate * K >= 0.0
    ensures rate > 0.0 && K > 0.0 ==> rate * K > 0.0
  {
  }

  /** k lineages each at a rate r: non-negative for r >= 0, positive for k >= 1 and r > 0, zero for k = 0. */
  lemma LineageRate(k: nat, r: real)
    ensures r >= 0.0 ==> k as real * r >= 0.0
    ensures k >= 1 && r > 0.0 ==> k as real * r > 0.0
    ensures k == 0 ==> k as real * r == 0.0
  {
    if k >= 1 && r > 0.0 {
      assert k as real * r >= r;
    }
  }

  /** The events of the simulator; a null event (no propensity left) happens at time +infinity. */
  datatype Event =
    | Coalescence(time: real)
    | Migration(fromType: int, toType: int, time: real)
    | NullEvent

  predicate ValidEvent(e: Event)
  {
    e.Migration? ==> (e.fromType == 0 && e.toType == 1) || (e.fromType == 1 && e.toType == 0)
  }

  /** A sample at height h enters before the event. */
  predicate Precedes(h: real, e: Event)
  {
    e.NullEvent? || h < e.time
  }

  /**
   * getNextEvent: the waiting time is added to t, and the uniform, scaled
   * by the total propensity, falls into the coalescence interval, then the
   * dormant-to-active interval, then the active-to-dormant interval.
   */
  function GetNextEvent(p: Propensities, total: real, t: real, d: Draw): (r: Result<Event>)
    ensures r.Ok? ==> ValidEvent(r.value)
    ensures r.Fail? ==> r.error == Runtime
    ensures r.Ok? && !r.value.NullEvent? ==> r.value.time == t + d.wait
  {
    if total > 0.0 then SelectEvent(p, t + d.wait, d.u * total) else Ok(NullEvent)
  }

  /** The event type selection of getNextEvent, given the scaled uniform u0. */
  function SelectEvent(p: Propensities, time: real, u0: real): (r: Result<Event>)
    ensures r.Ok? ==> ValidEvent(r.value) && !r.value.NullEvent? && r.value.time == time
    ensures r.Fail? ==> r.error == Runtime
  {
    if u0 < p.coalesce then Ok(Coalescence(time))
    else
      var u1 := u0 - p.coalesce;
      if u1 < p.fromDormant then Ok(Migration(0, 1, time))
      else
        var u2 := u1 - p.fromDormant;
        if u2 < p.fromActive then Ok(Migration(1, 0, time))
        else Fail(Runtime)
  }

  /** selectRandomSibling: a draw n below size-1 is shifted past the index to avoid. */
  function SiblingIndex(n: int, avoid: int): (r: int)
    ensures r != avoid
    ensures n <= r <= n + 1
  {
    if n >= avoid then n + 1 else n
  }

  /** Every index other than the avoided one is reachable by exactly one draw. */
  lemma SiblingIndexCovers(size: int, avoid: int, j: int)
    requires 0 <= avoid < size && 0 <= j < size && j != avoid
    ensures exists n :: 0 <= n < size - 1 && SiblingIndex(n, avoid) == j
    ensures forall n, n' :: SiblingIndex(n, avoid) == j && SiblingIndex(n', avoid) == j ==> n == n'
  {
    if j < avoid {
      assert SiblingIndex(j, avoid) == j;
    } else {
      assert SiblingIndex(j - 1, avoid) == j;
    }
  }

  /** List.indexOf: the first position holding x, or -1. */
  function IndexOf(s: seq<int>, x: int): (r: int)
    ensures -1 <= r < |s|
    ensures r == -1 <==> x !in s
    ensures r >= 0 ==> s[r] == x && x !in s[..r]
    decreases |s|
  {
    if |s| == 0 then -1
    else if s[0] == x then 0
    else
      var k := IndexOf(s[1..], x);
      assert s == [s[0]] + s[1..];
      if k == -1 then -1
      else
        assert s[..k + 1] == [s[0]] + s[1..][..k];
        k + 1
  }

  /** List.remove(Object) takes one copy of x out of the list. */
  lemma {:induction false} RemoveFirstMultiset(s: seq<int>, x: int)
    ensures multiset(RemoveFirst(s, x)) == multiset(s) - multiset{x}
    decreases |s|
  {
    if |s| > 0 {
      assert s == [s[0]] + s[1..];
      if s[0] != x {
        RemoveFirstMultiset(s[1..], x);
      }
    }
  }

  /** Two positions holding the same value make it occur twice. */
  lemma OccurrencesAt(s: seq<int>, i: int, j: int)
    requires 0 <= i < j < |s|
    ensures multiset(s)[s[i]] >= (if s[i] == s[j] then 2 else 1)
  {
    assert s == s[..i] + [s[i]] + s[i + 1..j] + [s[j]] + s[j + 1..];
  }

  lemma DistinctAt(s: seq<int>, i: int, j: int)
    requires 0 <= i < |s| && 0 <= j < |s| && i != j
    requires multiset(s)[s[i]] <= 1
    ensures s[i] != s[j]
  {
    if i < j {
      OccurrencesAt(s, i, j);
    } else {
      OccurrencesAt(s, j, i);
    }
  }

  // ---------------------------------------------------------------------
  // Simulation state

  /** The node arena, the live lineages and waiting samples per deme, and the current time. */
  datatype SimState = SimState(
    nodes: seq<NodeRec>,
    live0: seq<int>,
    live1: seq<int>,
    wait0: seq<int>,
    wait1: seq<int>,
    t: real)

  /** The tree the simulation returns: its nodes and its root. */
  datatype SimTree = SimTree(nodes: seq<NodeRec>, root: int)

  function LiveOf(s: SimState, k: int): seq<int>
  {
    if k == 0 then s.live0 else s.live1
  }

  function WaitOf(s: SimState, k: int): seq<int>
  {
    if k == 0 then s.wait0 else s.wait1
  }

  function WithLive(s: SimState, k: int, l: seq<int>): SimState
  {
    if k == 0 then s.(live0 := l) else s.(live1 := l)
  }

  function WithWait(s: SimState, k: int, l: seq<int>): SimState
  {
    if k == 0 then s.(wait0 := l) else s.(wait1 := l)
  }

  predicate ListIn(l: seq<int>, size: int)
  {
    forall j :: 0 <= j < |l| ==> 0 <= l[j] < size
  }

  predicate InRange(s: SimState)
  {
    ListIn(s.live0, |s.nodes|) && ListIn(s.live1, |s.nodes|) &&
    ListIn(s.wait0, |s.nodes|) && ListIn(s.wait1, |s.nodes|)
  }

  /** The time at the top of the branch built so far above a node. */
  function Top(r: NodeRec): real
  {
    PrevTime(r.height, r.changeTimes)
  }

  ghost function Pool(s: SimState): multiset<int>
  {
    multiset(s.live0) + multiset(s.live1) + multiset(s.wait0) + multiset(s.wait1)
  }

  function PoolSize(s: SimState): int
  {
    |s.live0| + |s.live1| + |s.wait0| + |s.wait1|
  }

  // ---------------------------------------------------------------------
  // The steps of the simulation

  /** The leaf node of sample l: its number, height and type, no parent, no children. */
  function Leaf(l: int, height: real, nodeType: int): NodeRec
  {
    NodeRec(l, height, -1, [], nodeType, 0, [], [])
  }

  /** The arena after a coalescence at `time`: a new parent node joins daughter and son. */
  function Coalesced(v: seq<NodeRec>, dau: int, son: int, time: real): seq<NodeRec>
    requires 0 <= dau < |v| && 0 <= son < |v|
  {
    var par := |v|;
    var v1 := v[dau := v[dau].(parent := par)];
    var v2 := v1[son := v1[son].(parent := par)];
    v2 + [NodeRec(par, time, -1, SetRight(SetLeft([], dau), son), 1, 0, [], [])]
  }

  /** The arena after node m changes to type `to` at `time` (addChange). */
  function Migrated(v: seq<NodeRec>, m: int, to: int, time: real): seq<NodeRec>
    requires 0 <= m < |v|
  {
    v[m := v[m].(changeCount := v[m].changeCount + 1,
                 changeTypes := v[m].changeTypes + [to],
                 changeTimes := v[m].changeTimes + [time])]
  }

  /** selectRandomNode on the active list: the daughter. */
  function Daughter(l: seq<int>, d: Draw): int
    requires |l| >= 2
  {
    l[d.pick % |l|]
  }

  /** selectRandomSibling on the active list, avoiding the daughter's position: the son. */
  function Son(l: seq<int>, d: Draw): int
    requires |l| >= 2
  {
    l[SiblingIndex(d.pick2 % (|l| - 1), IndexOf(l, Daughter(l, d)))]
  }

  /** The active list after the son is removed and the daughter's entry is replaced by the parent. */
  function CoalescedList(l: seq<int>, dau: int, son: int, par: int): seq<int>
    requires IndexOf(RemoveFirst(l, son), dau) >= 0
  {
    var rest := RemoveFirst(l, son);
    rest[IndexOf(rest, dau) := par]
  }

  /** The state after daughter and son coalesce at `time` into the node numbered |nodes|. */
  function AfterCoalescence(s: SimState, dau: int, son: int, time: real): SimState
    requires 0 <= dau < |s.nodes| && 0 <= son < |s.nodes|
    requires IndexOf(RemoveFirst(s.live1, son), dau) >= 0
  {
    s.(nodes := Coalesced(s.nodes, dau, son, time), live1 := CoalescedList(s.live1, dau, son, |s.nodes|), t := time)
  }

  /** updateTree for a coalescence: two distinct active lineages are replaced by their new parent. */
  function Coalesce(s: SimState, time: real, d: Draw): Result<SimState>
    requires ListIn(s.live1, |s.nodes|)
  {
    if |s.live1| < 2 then Fail(IllegalArgument)
    else
      var dau := Daughter(s.live1, d);
      var son := Son(s.live1, d);
      if IndexOf(RemoveFirst(s.live1, son), dau) < 0 then Fail(IndexOutOfBounds)
      else Ok(AfterCoalescence(s, dau, son, time))
  }

  /** updateTree for a migration: a random lineage of deme `from` records a change to `to` and moves to that list. */
  function Migrate(s: SimState, from: int, to: int, time: real, d: Draw): Result<SimState>
    requires InRange(s)
  {
    var l := LiveOf(s, from);
    if |l| == 0 then Fail(IllegalArgument)
    else
      var m := l[d.pick % |l|];
      var s1 := WithLive(s, from, RemoveFirst(l, m));
      var s2 := WithLive(s1, to, LiveOf(s1, to) + [m]);
      Ok(s2.(nodes := Migrated(s.nodes, m, to, time), t := time))
  }

  /**
   * updateTree. A null event takes the migration branch with both types 0:
   * with no dormant lineage the node draw throws; otherwise it records a
   * change at time +infinity and the loop never ends.
   */
  function UpdateTree(s: SimState, e: Event, d: Draw): Result<SimState>
    requires InRange(s) && ValidEvent(e)
  {
    match e
    case Coalescence(time) => Coalesce(s, time, d)
    case Migration(from, to, time) => Migrate(s, from, to, time, d)
    case NullEvent => if |s.live0| == 0 then Fail(IllegalArgument) else Fail(NoProgress)
  }

  /** The list whose head sample is youngest: list 0 unless list 1's head is strictly younger; -1 when none waits. */
  function NextWaitingType(s: SimState): (k: int)
    requires InRange(s)
    ensures k == -1 <==> |s.wait0| == 0 && |s.wait1| == 0
    ensures k == 0 ==> |s.wait0| > 0 && (|s.wait1| > 0 ==> s.nodes[s.wait0[0]].height <= s.nodes[s.wait1[0]].height)
    ensures k == 1 ==> |s.wait1| > 0 && (|s.wait0| > 0 ==> s.nodes[s.wait1[0]].height < s.nodes[s.wait0[0]].height)
  {
    if |s.wait0| == 0 && |s.wait1| == 0 then -1
    else if |s.wait0| == 0 then 1
    else if |s.wait1| > 0 && s.nodes[s.wait1[0]].height < s.nodes[s.wait0[0]].height then 1
    else 0
  }

  /** The head sample of list k becomes a live lineage and the clock moves to its height. */
  function Activate(s: SimState, k: int): SimState
    requires InRange(s) && (k == 0 || k == 1) && |WaitOf(s, k)| > 0
  {
    var w := WaitOf(s, k);
    var x := w[0];
    var s1 := WithLive(s, k, LiveOf(s, k) + [x]);
    WithWait(s1, k, w[1..]).(t := s.nodes[x].height)
  }

  /** One iteration of the simulation loop. */
  function Step(s: SimState, m: TransitionModel, d: Draw): Result<SimState>
    requires InRange(s)
  {
    var p := UpdatePropensities(m, |s.live1|, |s.live0|);
    AfterEvent(s, GetNextEvent(p, Total(p), s.t, d), d)
  }

  /** The rest of an iteration once the next event is known: activate the youngest waiting sample if it comes first, otherwise place the event. */
  function AfterEvent(s: SimState, e: Result<Event>, d: Draw): Result<SimState>
    requires InRange(s) && (e.Ok? ==> ValidEvent(e.value))
  {
    if e.Fail? then Fail(e.error)
    else
      var k := NextWaitingType(s);
      if k != -1 && Precedes(s.nodes[WaitOf(s, k)[0]].height, e.value) then Ok(Activate(s, k))
      else UpdateTree(s, e.value, d)
  }

  // ---------------------------------------------------------------------
  // The invariant of the simulation loop

  /** What holds of node i while the tree is being built. */
  ghost predicate NodeOk(v: seq<NodeRec>, i: int, hs: seq<real>, ts: seq<int>)
    requires 0 <= i < |v| && |hs| == |ts|
  {
    var r := v[i];
    var n := |hs|;
    r.nr == i && r.Consistent() && Ascending([r.height] + r.changeTimes) &&
    (i < n ==> r.children == [] && r.height == hs[i] && r.nodeType == ts[i]) &&
    (i >= n ==>
      |r.children| == 2 && r.children[0] != r.children[1] && r.nodeType == 1 &&
      0 <= r.children[0] < |v| && 0 <= r.children[1] < |v| &&
      v[r.children[0]].parent == i && v[r.children[1]].parent == i) &&
    (r.parent == -1 ||
      (n <= r.parent < |v| && BranchTimesOrdered(v[r.parent].height, r) &&
       FinalType(r.nodeType, r.changeTypes) == v[r.parent].nodeType))
  }

  ghost predicate Arena(v: seq<NodeRec>, hs: seq<real>, ts: seq<int>)
  {
    |hs| == |ts| && |hs| <= |v| && forall i :: 0 <= i < |v| ==> NodeOk(v, i, hs, ts)
  }

  /**
   * The pool P of lineages (size counts them) holds each node at most
   * once, holds exactly the nodes without a parent, and shrinks by one with
   * every new node; the newest internal node has no parent yet.
   */
  ghost predicate PoolInv(v: seq<NodeRec>, P: multiset<int>, size: int, n: int)
  {
    (forall x :: P[x] <= 1) &&
    (forall x :: P[x] > 0 ==> 0 <= x < |v|) &&
    (forall i :: 0 <= i < |v| ==> (v[i].parent == -1 <==> P[i] > 0)) &&
    size + |v| == 2 * n &&
    (n >= 1 ==> size >= 1) &&
    (0 <= n < |v| ==> v[|v| - 1].parent == -1)
  }

  ghost predicate PoolOk(s: SimState, n: int)
  {
    PoolInv(s.nodes, Pool(s), PoolSize(s), n)
  }

  /** A live lineage of deme k currently has type k and its branch reaches no later than t. */
  ghost predicate LiveListOk(v: seq<NodeRec>, l: seq<int>, k: int, t: real)
  {
    forall j :: 0 <= j < |l| ==>
      0 <= l[j] < |v| && FinalType(v[l[j]].nodeType, v[l[j]].changeTypes) == k && Top(v[l[j]]) <= t
  }

  /** A waiting sample of deme k is an unchanged leaf of type k; the list is sorted by height. */
  ghost predicate WaitListOk(v: seq<NodeRec>, l: seq<int>, k: int, ts: seq<int>)
  {
    (forall j :: 0 <= j < |l| ==> 0 <= l[j] < |ts| && l[j] < |v| && ts[l[j]] == k && v[l[j]].changeCount == 0) &&
    (forall i, j :: 0 <= i < j < |l| ==> v[l[i]].height <= v[l[j]].height)
  }

  ghost predicate WaitingAfter(v: seq<NodeRec>, l: seq<int>, time: real)
  {
    forall j :: 0 <= j < |l| && 0 <= l[j] < |v| ==> v[l[j]].height >= time
  }

  ghost predicate Inv(s: SimState, hs: seq<real>, ts: seq<int>)
  {
    InRange(s) && Arena(s.nodes, hs, ts) && PoolOk(s, |hs|) &&
    LiveListOk(s.nodes, s.live0, 0, s.t) && LiveListOk(s.nodes, s.live1, 1, s.t) &&
    WaitListOk(s.nodes, s.wait0, 0, ts) && WaitListOk(s.nodes, s.wait1, 1, ts) &&
    (|s.live0| + |s.live1| > 0 ==> WaitingAfter(s.nodes, s.wait0, s.t) && WaitingAfter(s.nodes, s.wait1, s.t))
  }

  /** A list of arena indices has no entry at or beyond the arena's end. */
  lemma OutsideList(l: seq<int>, size: int, x: int)
    requires ListIn(l, size) && x >= size
    ensures multiset(l)[x] == 0
  {
    assert x !in l;
  }

  lemma CoalescedArena(v: seq<NodeRec>, dau: int, son: int, time: real, hs: seq<real>, ts: seq<int>)
    requires Arena(v, hs, ts)
    requires 0 <= dau < |v| && 0 <= son < |v| && dau != son
    requires v[dau].parent == -1 && v[son].parent == -1
    requires FinalType(v[dau].nodeType, v[dau].changeTypes) == 1
    requires FinalType(v[son].nodeType, v[son].changeTypes) == 1
    requires Top(v[dau]) <= time && Top(v[son]) <= time
    ensures Arena(Coalesced(v, dau, son, time), hs, ts)
  {
    var w := Coalesced(v, dau, son, time);
    var par := |v|;
    CoalescedNodeFacts(v, dau, son, time);
    forall i | 0 <= i < |w| ensures NodeOk(w, i, hs, ts) {
      if i == par {
        assert w[i].changeTimes == [];
      } else if i == dau || i == son {
        assert NodeOk(v, i, hs, ts);
        var r := v[i];
        assert [r.height] + r.changeTimes + [time] == ([r.height] + r.changeTimes) + [time];
        assert BranchTimesOrdered(w[par].height, w[i]);
        if i >= |hs| {
          assert w[r.children[0]].parent == i && w[r.children[1]].parent == i;
        }
      } else {
        assert NodeOk(v, i, hs, ts);
        assert w[i] == v[i];
        if i >= |hs| {
          assert w[v[i].children[0]].parent == i && w[v[i].children[1]].parent == i;
        }
        if v[i].parent != -1 {
          assert w[v[i].parent].height == v[v[i].parent].height;
          assert w[v[i].parent].nodeType == v[v[i].parent].nodeType;
        }
      }
    }
  }

  lemma MigratedArena(v: seq<NodeRec>, m: int, to: int, time: real, hs: seq<real>, ts: seq<int>)
    requires Arena(v, hs, ts)
    requires 0 <= m < |v| && v[m].parent == -1 && Top(v[m]) <= time
    ensures Arena(Migrated(v, m, to, time), hs, ts)
  {
    var w := Migrated(v, m, to, time);
    forall i | 0 <= i < |w| ensures NodeOk(w, i, hs, ts) {
      assert NodeOk(v, i, hs, ts);
      if i == m {
        var r := v[i];
        assert [r.height] + w[i].changeTimes == ([r.height] + r.changeTimes) + [time];
        if i >= |hs| {
          assert w[r.children[0]].parent == i && w[r.children[1]].parent == i;
        }
      } else {
        assert w[i] == v[i];
        if i >= |hs| {
          assert w[v[i].children[0]].parent == i && w[v[i].children[1]].parent == i;
        }
        if v[i].parent != -1 {
          assert w[v[i].parent].height == v[v[i].parent].height;
          assert w[v[i].parent].nodeType == v[v[i].parent].nodeType;
        }
      }
    }
  }


  lemma RemoveFirstFacts(l: seq<int>, x: int)
    requires x in l
    ensures multiset(l) == multiset(RemoveFirst(l, x)) + multiset{x}
    ensures |RemoveFirst(l, x)| == |l| - 1
  {
    RemoveFirstMultiset(l, x);
    assert x in multiset(l);
    assert |multiset(RemoveFirst(l, x))| == |RemoveFirst(l, x)|;
  }

  /** List.set replaces one occurrence. */
  lemma UpdateMultiset(s: seq<int>, i: int, y: int)
    requires 0 <= i < |s|
    ensures multiset(s[i := y]) == multiset(s) - multiset{s[i]} + multiset{y}
  {
    assert s == s[..i] + [s[i]] + s[i + 1..];
    assert s[i := y] == s[..i] + [y] + s[i + 1..];
  }

  lemma UpdatedMembers(l: seq<int>, rest: seq<int>, idx: int, son: int, par: int, u: seq<int>)
    requires multiset(l) == multiset(rest) + multiset{son} && multiset(l)[son] <= 1
    requires 0 <= idx < |rest| && multiset(rest)[rest[idx]] <= 1 && u == rest[idx := par]
    ensures forall j :: 0 <= j < |u| ==> u[j] == par || (u[j] in l && u[j] != rest[idx] && u[j] != son)
  {
    forall j | 0 <= j < |rest| && j != idx
      ensures rest[j] in l && rest[j] != rest[idx] && rest[j] != son
    {
      DistinctAt(rest, idx, j);
      assert rest[j] in multiset(rest);
      assert rest[j] in multiset(l);
    }
  }

  /** On a list without repeats, the daughter and the son are different lineages. */
  lemma PickedPairDistinct(l: seq<int>, d: Draw)
    requires |l| >= 2 && multiset(l)[Son(l, d)] <= 1
    ensures Daughter(l, d) != Son(l, d)
    ensures Daughter(l, d) in l && Son(l, d) in l
  {
    var dau := Daughter(l, d);
    var avoid := IndexOf(l, dau);
    var b := SiblingIndex(d.pick2 % (|l| - 1), avoid);
    DistinctAt(l, b, avoid);
  }

  /** The list after a coalescence loses the daughter and the son and gains the parent. */
  lemma CoalescedListFacts(l: seq<int>, dau: int, son: int, par: int)
    requires dau != son && dau in l && son in l
    requires multiset(l)[dau] <= 1 && multiset(l)[son] <= 1
    ensures IndexOf(RemoveFirst(l, son), dau) >= 0
    ensures multiset(CoalescedList(l, dau, son, par)) == multiset(l) - multiset{dau} - multiset{son} + multiset{par}
    ensures |CoalescedList(l, dau, son, par)| == |l| - 1
    ensures forall j :: 0 <= j < |CoalescedList(l, dau, son, par)| ==>
      CoalescedList(l, dau, son, par)[j] == par ||
      (CoalescedList(l, dau, son, par)[j] in l && CoalescedList(l, dau, son, par)[j] != dau &&
       CoalescedList(l, dau, son, par)[j] != son)
  {
    RemoveFirstFacts(l, son);
    var rest := RemoveFirst(l, son);
    assert dau in multiset(l);
    assert dau in multiset(rest);
    var idx := IndexOf(rest, dau);
    UpdateMultiset(rest, idx, par);
    assert multiset(rest)[dau] <= multiset(l)[dau];
    UpdatedMembers(l, rest, idx, son, par, rest[idx := par]);
  }

  /** The lineages a coalescence picks from the pool: two different parentless active lineages. */
  lemma CoalescePicks(s: SimState, d: Draw, n: int)
    requires InRange(s) && PoolOk(s, n) && |s.live1| >= 2
    ensures Daughter(s.live1, d) != Son(s.live1, d)
    ensures Daughter(s.live1, d) in s.live1 && Son(s.live1, d) in s.live1
    ensures Pool(s)[Daughter(s.live1, d)] == 1 && Pool(s)[Son(s.live1, d)] == 1
    ensures multiset(s.live1)[Daughter(s.live1, d)] == 1 && multiset(s.live1)[Son(s.live1, d)] == 1
    ensures IndexOf(RemoveFirst(s.live1, Son(s.live1, d)), Daughter(s.live1, d)) >= 0
  {
    var l := s.live1;
    var dau := Daughter(l, d);
    var son := Son(l, d);
    assert multiset(l)[dau] <= Pool(s)[dau] <= 1;
    assert multiset(l)[son] <= Pool(s)[son] <= 1;
    PickedPairDistinct(l, d);
    CoalescedListFacts(l, dau, son, |s.nodes|);
  }

  /** A coalescence on the invariant's state keeps the invariant and never hits the indexOf failure. */
  lemma CoalescePreserves(s: SimState, time: real, d: Draw, hs: seq<real>, ts: seq<int>)
    requires s in Invariant(hs, ts) && |s.live1| >= 2 && s.t <= time
    requires WaitingAfter(s.nodes, s.wait0, time) && WaitingAfter(s.nodes, s.wait1, time)
    ensures Coalesce(s, time, d).Ok? && Coalesce(s, time, d).value in Invariant(hs, ts)
  {
    InvPool(s, hs, ts);
    CoalescePicks(s, d, |hs|);
    var dau := Daughter(s.live1, d);
    var son := Son(s.live1, d);
    assert Coalesce(s, time, d) == Ok(AfterCoalescence(s, dau, son, time));
    CoalescePair(s, dau, son, time, hs, ts);
  }

  /** Joining two distinct active lineages present once each keeps the invariant. */
  lemma CoalescePair(s: SimState, dau: int, son: int, time: real, hs: seq<real>, ts: seq<int>)
    requires s in Invariant(hs, ts) && s.t <= time
    requires WaitingAfter(s.nodes, s.wait0, time) && WaitingAfter(s.nodes, s.wait1, time)
    requires dau != son && dau in s.live1 && son in s.live1 && Pool(s)[dau] == 1 && Pool(s)[son] == 1
    requires IndexOf(RemoveFirst(s.live1, son), dau) >= 0
    ensures AfterCoalescence(s, dau, son, time) in Invariant(hs, ts)
  {
    assert Inv(s, hs, ts);
    var s' := AfterCoalescence(s, dau, son, time);
    CoalescePool(s, dau, son, time, |hs|);
    CoalescedArena(s.nodes, dau, son, time, hs, ts);
    InOneList(s, dau);
    InOneList(s, son);
    CoalesceLiveLists(s.nodes, s.live0, s.live1, dau, son, s.t, time);
    WaitListCoalesced(s.nodes, dau, son, time, s.wait0, 0, ts);
    WaitListCoalesced(s.nodes, dau, son, time, s.wait1, 1, ts);
    InvOfParts(s', hs, ts);
  }

  lemma InvPool(s: SimState, hs: seq<real>, ts: seq<int>)
    requires s in Invariant(hs, ts)
    ensures InRange(s) && PoolOk(s, |hs|)
  {
    assert Inv(s, hs, ts);
  }

  /** The invariant from its parts, with both waiting lists no earlier than the clock. */
  lemma InvOfParts(s: SimState, hs: seq<real>, ts: seq<int>)
    requires InRange(s) && Arena(s.nodes, hs, ts) && PoolOk(s, |hs|)
    requires ListsOk(s.nodes, s.live0, s.live1, s.wait0, s.wait1, s.t, ts)
    ensures s in Invariant(hs, ts)
  {
  }

  lemma CoalescePool(s: SimState, dau: int, son: int, time: real, n: int)
    requires PoolOk(s, n)
    requires 0 <= dau < |s.nodes| && 0 <= son < |s.nodes| && dau != son
    requires Pool(s)[dau] == 1 && Pool(s)[son] == 1
    requires dau in s.live1 && son in s.live1
    requires IndexOf(RemoveFirst(s.live1, son), dau) >= 0
    ensures PoolOk(AfterCoalescence(s, dau, son, time), n)
  {
    var s' := AfterCoalescence(s, dau, son, time);
    CoalescedListFacts(s.live1, dau, son, |s.nodes|);
    assert dau in multiset(s.live1) && son in multiset(s.live1);
    ReplacePair(multiset(s.live0), multiset(s.wait0) + multiset(s.wait1), multiset(s.live1), multiset(s'.live1), dau, son, |s.nodes|);
    assert PoolSize(s') == PoolSize(s) - 1;
    PoolAfterCoalescence(s.nodes, Pool(s), PoolSize(s), n, dau, son, time, Pool(s'), PoolSize(s'));
  }

  /** Replacing two distinct members of one part of a sum replaces them in the sum. */
  lemma ReplacePair(a: multiset<int>, b: multiset<int>, l: multiset<int>, l': multiset<int>, x: int, y: int, z: int)
    requires x != y && x in l && y in l && l' == l - multiset{x} - multiset{y} + multiset{z}
    ensures a + l' + b == (a + l + b) - multiset{x} - multiset{y} + multiset{z}
  {
  }

  lemma PoolAfterCoalescence(v: seq<NodeRec>, P: multiset<int>, size: int, n: int, dau: int, son: int, time: real,
                              P': multiset<int>, size': int)
    requires PoolInv(v, P, size, n)
    requires 0 <= dau < |v| && 0 <= son < |v| && dau != son && P[dau] == 1 && P[son] == 1 && size >= 2
    requires P' == P - multiset{dau} - multiset{son} + multiset{|v|} && size' == size - 1
    ensures PoolInv(Coalesced(v, dau, son, time), P', size', n)
  {
    var w := Coalesced(v, dau, son, time);
    CoalescedNodeFacts(v, dau, son, time);
    assert P[|v|] == 0;
    forall i | 0 <= i < |w| ensures (w[i].parent == -1 <==> P'[i] > 0) {
      if i == |v| {
        assert P'[i] == 1;
      } else if i == dau || i == son {
        assert P'[i] == 0;
      } else {
        assert P'[i] == P[i];
      }
    }
  }

  /** What a coalescence changes in the arena: two parent links and one new node. */
  lemma CoalescedNodeFacts(v: seq<NodeRec>, dau: int, son: int, time: real)
    requires 0 <= dau < |v| && 0 <= son < |v|
    ensures |Coalesced(v, dau, son, time)| == |v| + 1
    ensures forall x :: 0 <= x < |v| ==>
      Coalesced(v, dau, son, time)[x] == (if x == dau || x == son then v[x].(parent := |v|) else v[x])
    ensures Coalesced(v, dau, son, time)[|v|] == NodeRec(|v|, time, -1, [dau, son], 1, 0, [], [])
  {
  }

  /** The live lists after a coalescence: the untouched lineages keep their state, the parent is active at `time`. */
  lemma CoalesceLiveLists(v: seq<NodeRec>, live0: seq<int>, l: seq<int>, dau: int, son: int, t: real, time: real)
    requires LiveListOk(v, live0, 0, t) && LiveListOk(v, l, 1, t) && t <= time
    requires dau !in live0 && son !in live0
    requires dau != son && dau in l && son in l && multiset(l)[dau] <= 1 && multiset(l)[son] <= 1
    requires IndexOf(RemoveFirst(l, son), dau) >= 0
    ensures LiveListOk(Coalesced(v, dau, son, time), live0, 0, time)
    ensures LiveListOk(Coalesced(v, dau, son, time), CoalescedList(l, dau, son, |v|), 1, time)
  {
    CoalescedNodeFacts(v, dau, son, time);
    CoalescedListFacts(l, dau, son, |v|);
    var w := Coalesced(v, dau, son, time);
    var u := CoalescedList(l, dau, son, |v|);
    forall j | 0 <= j < |u|
      ensures 0 <= u[j] < |w| && FinalType(w[u[j]].nodeType, w[u[j]].changeTypes) == 1 && Top(w[u[j]]) <= time
    {
      if u[j] != |v| {
        var k :| 0 <= k < |l| && l[k] == u[j];
      }
    }
  }

  /** A waiting list stays valid when heights and change counts of the old nodes are kept. */
  lemma WaitListKept(v: seq<NodeRec>, w: seq<NodeRec>, l: seq<int>, k: int, ts: seq<int>, time: real)
    requires WaitListOk(v, l, k, ts) && WaitingAfter(v, l, time)
    requires |v| <= |w| && forall x :: 0 <= x < |v| ==> w[x].height == v[x].height && w[x].changeCount == v[x].changeCount
    ensures WaitListOk(w, l, k, ts) && WaitingAfter(w, l, time)
  {
  }

  lemma WaitListCoalesced(v: seq<NodeRec>, dau: int, son: int, time: real, l: seq<int>, k: int, ts: seq<int>)
    requires WaitListOk(v, l, k, ts) && WaitingAfter(v, l, time) && 0 <= dau < |v| && 0 <= son < |v|
    ensures WaitListOk(Coalesced(v, dau, son, time), l, k, ts) && WaitingAfter(Coalesced(v, dau, son, time), l, time)
  {
    CoalescedNodeFacts(v, dau, son, time);
    WaitListKept(v, Coalesced(v, dau, son, time), l, k, ts, time);
  }

  /** A lineage the pool holds once sits in exactly one of the four lists. */
  lemma InOneList(s: SimState, x: int)
    requires Pool(s)[x] <= 1
    ensures x in s.live0 ==> x !in s.live1 && x !in s.wait0 && x !in s.wait1
    ensures x in s.live1 ==> x !in s.live0 && x !in s.wait0 && x !in s.wait1
    ensures x in s.live0 ==> multiset(s.live0)[x] == 1
    ensures x in s.live1 ==> multiset(s.live1)[x] == 1
  {
    assert Pool(s)[x] == multiset(s.live0)[x] + multiset(s.live1)[x] + multiset(s.wait0)[x] + multiset(s.wait1)[x];
  }

  // Migration

  /** What a migration changes in the arena: one more change on node m, ending in type `to` at `time`. */
  lemma MigratedNodeFacts(v: seq<NodeRec>, m: int, to: int, time: real)
    requires 0 <= m < |v|
    ensures |Migrated(v, m, to, time)| == |v|
    ensures forall x :: 0 <= x < |v| && x != m ==> Migrated(v, m, to, time)[x] == v[x]
    ensures Migrated(v, m, to, time)[m].height == v[m].height
    ensures Migrated(v, m, to, time)[m].parent == v[m].parent
    ensures Migrated(v, m, to, time)[m].changeCount == v[m].changeCount + 1
    ensures FinalType(Migrated(v, m, to, time)[m].nodeType, Migrated(v, m, to, time)[m].changeTypes) == to
    ensures Top(Migrated(v, m, to, time)[m]) == time
  {
  }

  lemma PoolAfterMigration(v: seq<NodeRec>, P: multiset<int>, size: int, n: int, m: int, to: int, time: real,
                            P': multiset<int>, size': int)
    requires PoolInv(v, P, size, n) && 0 <= m < |v| && P' == P && size' == size
    ensures PoolInv(Migrated(v, m, to, time), P', size', n)
  {
    MigratedNodeFacts(v, m, to, time);
  }

  /** Moving one element from list l to list o keeps their multiset sum. */
  lemma MoveKeepsSum(l: seq<int>, o: seq<int>, m: int)
    requires m in l
    ensures multiset(RemoveFirst(l, m)) + multiset(o + [m]) == multiset(l) + multiset(o)
    ensures multiset(o + [m]) + multiset(RemoveFirst(l, m)) == multiset(o) + multiset(l)
    ensures |RemoveFirst(l, m)| + |o + [m]| == |l| + |o|
  {
    RemoveFirstFacts(l, m);
  }

  /** The remaining entries of a list without repeats, once m is removed, are old entries other than m. */
  lemma RemovedMembers(l: seq<int>, m: int)
    requires m in l && multiset(l)[m] <= 1
    ensures forall j :: 0 <= j < |RemoveFirst(l, m)| ==> RemoveFirst(l, m)[j] in l && RemoveFirst(l, m)[j] != m
  {
    RemoveFirstFacts(l, m);
    var rest := RemoveFirst(l, m);
    forall j | 0 <= j < |rest| ensures rest[j] in l && rest[j] != m {
      assert rest[j] in multiset(rest);
      assert rest[j] in multiset(l);
    }
  }

  /** The live lists after lineage m of deme `from` changes to deme `to` at `time`. */
  lemma MigrateLiveLists(v: seq<NodeRec>, l: seq<int>, o: seq<int>, m: int, from: int, to: int, t: real, time: real)
    requires LiveListOk(v, l, from, t) && LiveListOk(v, o, to, t) && t <= time
    requires m in l && multiset(l)[m] <= 1 && m !in o
    ensures LiveListOk(Migrated(v, m, to, time), RemoveFirst(l, m), from, time)
    ensures LiveListOk(Migrated(v, m, to, time), o + [m], to, time)
  {
    MigratedNodeFacts(v, m, to, time);
    RemovedMembers(l, m);
    var w := Migrated(v, m, to, time);
    var rest := RemoveFirst(l, m);
    forall j | 0 <= j < |rest|
      ensures 0 <= rest[j] < |w| && FinalType(w[rest[j]].nodeType, w[rest[j]].changeTypes) == from && Top(w[rest[j]]) <= time
    {
      var k :| 0 <= k < |l| && l[k] == rest[j];
    }
  }

  lemma WaitListMigrated(v: seq<NodeRec>, m: int, to: int, time: real, l: seq<int>, k: int, ts: seq<int>)
    requires WaitListOk(v, l, k, ts) && WaitingAfter(v, l, time) && 0 <= m < |v| && m !in l
    ensures WaitListOk(Migrated(v, m, to, time), l, k, ts) && WaitingAfter(Migrated(v, m, to, time), l, time)
  {
    MigratedNodeFacts(v, m, to, time);
  }

  /** The moved lineage of a migration: drawn from the list of deme `from`. */
  function Moved(s: SimState, from: int, d: Draw): int
    requires |LiveOf(s, from)| > 0
  {
    LiveOf(s, from)[d.pick % |LiveOf(s, from)|]
  }

  lemma MigrateShape(s: SimState, from: int, to: int, time: real, d: Draw)
    requires InRange(s) && |LiveOf(s, from)| > 0
    requires (from == 0 && to == 1) || (from == 1 && to == 0)
    ensures Migrate(s, from, to, time, d).Ok?
    ensures var m := Moved(s, from, d);
      var w := Migrated(s.nodes, m, to, time);
      Migrate(s, from, to, time, d).value ==
        if from == 0 then SimState(w, RemoveFirst(s.live0, m), s.live1 + [m], s.wait0, s.wait1, time)
        else SimState(w, s.live0 + [m], RemoveFirst(s.live1, m), s.wait0, s.wait1, time)
  {
  }

  /** The moved lineage is a parentless lineage the pool holds once, in its own list only. */
  lemma MovedFacts(s: SimState, from: int, d: Draw, n: int)
    requires InRange(s) && PoolOk(s, n) && |LiveOf(s, from)| > 0 && (from == 0 || from == 1)
    ensures Moved(s, from, d) in LiveOf(s, from) && multiset(LiveOf(s, from))[Moved(s, from, d)] == 1
    ensures 0 <= Moved(s, from, d) < |s.nodes| && s.nodes[Moved(s, from, d)].parent == -1
    ensures Moved(s, from, d) !in LiveOf(s, 1 - from)
    ensures Moved(s, from, d) !in s.wait0 && Moved(s, from, d) !in s.wait1
  {
    var m := Moved(s, from, d);
    assert m in LiveOf(s, from);
    assert Pool(s)[m] <= 1 && Pool(s)[m] > 0;
    InOneList(s, m);
  }

  lemma MigratePoolOk(s: SimState, from: int, to: int, time: real, d: Draw, n: int)
    requires InRange(s) && PoolOk(s, n) && |LiveOf(s, from)| > 0
    requires (from == 0 && to == 1) || (from == 1 && to == 0)
    ensures PoolOk(Migrate(s, from, to, time, d).value, n)
  {
    MigrateShape(s, from, to, time, d);
    MovedFacts(s, from, d, n);
    var m := Moved(s, from, d);
    var s' := Migrate(s, from, to, time, d).value;
    if from == 0 {
      MoveKeepsSum(s.live0, s.live1, m);
    } else {
      MoveKeepsSum(s.live1, s.live0, m);
    }
    assert Pool(s') == Pool(s) && PoolSize(s') == PoolSize(s);
    PoolAfterMigration(s.nodes, Pool(s), PoolSize(s), n, m, to, time, Pool(s'), PoolSize(s'));
  }

  lemma MigrateInRange(s: SimState, from: int, to: int, time: real, d: Draw)
    requires InRange(s) && |LiveOf(s, from)| > 0
    requires (from == 0 && to == 1) || (from == 1 && to == 0)
    ensures InRange(Migrate(s, from, to, time, d).value)
  {
    MigrateShape(s, from, to, time, d);
    var l := LiveOf(s, from);
    var m := Moved(s, from, d);
    MigratedNodeFacts(s.nodes, m, to, time);
    assert ListIn(l, |s.nodes|) && ListIn(LiveOf(s, to), |s.nodes|);
    ListRemoveIn(l, m, |s.nodes|);
    ListAppendIn(LiveOf(s, to), m, |s.nodes|);
  }

  lemma ListRemoveIn(l: seq<int>, m: int, size: int)
    requires ListIn(l, size)
    ensures ListIn(RemoveFirst(l, m), size)
  {
    RemoveFirstMultiset(l, m);
    var rest := RemoveFirst(l, m);
    forall j | 0 <= j < |rest| ensures 0 <= rest[j] < size {
      assert rest[j] in multiset(rest);
      assert rest[j] in multiset(l);
      assert rest[j] in l;
    }
  }

  lemma ListAppendIn(l: seq<int>, m: int, size: int)
    requires ListIn(l, size) && 0 <= m < size
    ensures ListIn(l + [m], size)
  {
  }

  lemma MigrateListsOk(s: SimState, from: int, to: int, time: real, d: Draw, hs: seq<real>, ts: seq<int>)
    requires Inv(s, hs, ts) && s.t <= time && |LiveOf(s, from)| > 0
    requires (from == 0 && to == 1) || (from == 1 && to == 0)
    requires WaitingAfter(s.nodes, s.wait0, time) && WaitingAfter(s.nodes, s.wait1, time)
    ensures var s' := Migrate(s, from, to, time, d).value;
      LiveListOk(s'.nodes, s'.live0, 0, s'.t) && LiveListOk(s'.nodes, s'.live1, 1, s'.t) &&
      WaitListOk(s'.nodes, s'.wait0, 0, ts) && WaitListOk(s'.nodes, s'.wait1, 1, ts) &&
      WaitingAfter(s'.nodes, s'.wait0, s'.t) && WaitingAfter(s'.nodes, s'.wait1, s'.t)
  {
    MigrateShape(s, from, to, time, d);
    MovedFacts(s, from, d, |hs|);
    var m := Moved(s, from, d);
    MigrateLiveLists(s.nodes, LiveOf(s, from), LiveOf(s, to), m, from, to, s.t, time);
    WaitListMigrated(s.nodes, m, to, time, s.wait0, 0, ts);
    WaitListMigrated(s.nodes, m, to, time, s.wait1, 1, ts);
  }

  /** A migration on the invariant's state keeps the invariant. */
  lemma MigratePreserves(s: SimState, from: int, to: int, time: real, d: Draw, hs: seq<real>, ts: seq<int>)
    requires Inv(s, hs, ts) && s.t <= time && |LiveOf(s, from)| > 0
    requires (from == 0 && to == 1) || (from == 1 && to == 0)
    requires WaitingAfter(s.nodes, s.wait0, time) && WaitingAfter(s.nodes, s.wait1, time)
    ensures Migrate(s, from, to, time, d).Ok? && Migrate(s, from, to, time, d).value in Invariant(hs, ts)
  {
    MigrateShape(s, from, to, time, d);
    MovedFacts(s, from, d, |hs|);
    MigratedArena(s.nodes, Moved(s, from, d), to, time, hs, ts);
    MigratePoolOk(s, from, to, time, d, |hs|);
    MigrateInRange(s, from, to, time, d);
    MigrateListsOk(s, from, to, time, d, hs, ts);
  }

  // Activation

  lemma ActivateShape(s: SimState, k: int)
    requires InRange(s) && (k == 0 || k == 1) && |WaitOf(s, k)| > 0
    ensures var x := WaitOf(s, k)[0];
      Activate(s, k) ==
        if k == 0 then SimState(s.nodes, s.live0 + [x], s.live1, s.wait0[1..], s.wait1, s.nodes[x].height)
        else SimState(s.nodes, s.live0, s.live1 + [x], s.wait0, s.wait1[1..], s.nodes[x].height)
  {
  }

  /** Moving the head of w to the end of l keeps their multiset sum. */
  lemma MoveHeadKeepsSum(l: seq<int>, w: seq<int>)
    requires |w| > 0
    ensures multiset(l + [w[0]]) + multiset(w[1..]) == multiset(l) + multiset(w)
    ensures |l + [w[0]]| + |w[1..]| == |l| + |w|
  {
    assert w == [w[0]] + w[1..];
  }

  lemma ActivatePoolOk(s: SimState, k: int, n: int)
    requires InRange(s) && PoolOk(s, n) && (k == 0 || k == 1) && |WaitOf(s, k)| > 0
    ensures PoolOk(Activate(s, k), n)
  {
    ActivateShape(s, k);
    var s' := Activate(s, k);
    MoveHeadKeepsSum(LiveOf(s, k), WaitOf(s, k));
    if k == 0 {
      SumOfFour(multiset(s.live0), multiset(s.live1), multiset(s.wait0), multiset(s.wait1), multiset(s'.live0), multiset(s'.wait0));
    } else {
      SumOfFour(multiset(s.live1), multiset(s.live0), multiset(s.wait1), multiset(s.wait0), multiset(s'.live1), multiset(s'.wait1));
    }
    assert Pool(s') == Pool(s) && PoolSize(s') == PoolSize(s);
  }

  lemma SumOfFour(a: multiset<int>, b: multiset<int>, c: multiset<int>, d: multiset<int>, a': multiset<int>, c': multiset<int>)
    requires a' + c' == a + c
    ensures a' + b + c' + d == a + b + c + d
    ensures b + a' + d + c' == b + a + d + c
  {
    forall x ensures a'[x] + c'[x] == a[x] + c[x] {
      assert (a' + c')[x] == (a + c)[x];
    }
  }

  lemma ActivateInRange(s: SimState, k: int)
    requires InRange(s) && (k == 0 || k == 1) && |WaitOf(s, k)| > 0
    ensures InRange(Activate(s, k))
  {
    ActivateShape(s, k);
    var w := WaitOf(s, k);
    assert ListIn(w, |s.nodes|) && ListIn(LiveOf(s, k), |s.nodes|);
    assert ListIn(w[1..], |s.nodes|);
    ListAppendIn(LiveOf(s, k), w[0], |s.nodes|);
  }

  /** A sample entering at its own height: its branch ends at that height with its leaf type. */
  lemma ActivatedLiveLists(v: seq<NodeRec>, l: seq<int>, x: int, k: int, t: real)
    requires LiveListOk(v, l, k, t)
    requires 0 <= x < |v| && v[x].Consistent() && v[x].nodeType == k && v[x].changeCount == 0
    requires |l| > 0 ==> t <= v[x].height
    ensures LiveListOk(v, l + [x], k, v[x].height)
  {
  }

  lemma LiveListLater(v: seq<NodeRec>, l: seq<int>, k: int, t: real, t': real)
    requires LiveListOk(v, l, k, t) && t <= t'
    ensures LiveListOk(v, l, k, t')
  {
  }

  /** The rest of a sorted waiting list, and the other list, wait no earlier than the activated head. */
  lemma WaitListTail(v: seq<NodeRec>, l: seq<int>, k: int, ts: seq<int>)
    requires WaitListOk(v, l, k, ts) && |l| > 0
    ensures WaitListOk(v, l[1..], k, ts) && WaitingAfter(v, l[1..], v[l[0]].height)
  {
    forall j | 0 <= j < |l| - 1 ensures v[l[1..][j]].height >= v[l[0]].height {
      assert l[1..][j] == l[j + 1];
    }
  }

  lemma WaitListAfterHead(v: seq<NodeRec>, l: seq<int>, k: int, ts: seq<int>, h: real)
    requires WaitListOk(v, l, k, ts) && (|l| > 0 ==> h <= v[l[0]].height)
    ensures WaitingAfter(v, l, h)
  {
    forall j | 0 <= j < |l| && 0 <= l[j] < |v| ensures v[l[j]].height >= h {
      if j > 0 {
        assert v[l[0]].height <= v[l[j]].height;
      }
    }
  }

  lemma ActivateListsOk(s: SimState, k: int, hs: seq<real>, ts: seq<int>)
    requires Inv(s, hs, ts) && k == NextWaitingType(s) && k != -1
    ensures Activate(s, k) in ListsGood(ts)
  {
    ActivateShape(s, k);
    assert NodeOk(s.nodes, WaitOf(s, k)[0], hs, ts);
    if k == 0 {
      ActivatedLists(s.nodes, s.live0, s.live1, s.wait0, s.wait1, 0, s.t, ts);
    } else {
      ActivatedLists(s.nodes, s.live1, s.live0, s.wait1, s.wait0, 1, s.t, ts);
    }
  }

  /** The live and waiting lists' conditions, with both waiting lists no earlier than time t. */
  ghost predicate ListsOk(v: seq<NodeRec>, l0: seq<int>, l1: seq<int>, w0: seq<int>, w1: seq<int>, t: real, ts: seq<int>)
  {
    LiveListOk(v, l0, 0, t) && LiveListOk(v, l1, 1, t) && WaitListOk(v, w0, 0, ts) && WaitListOk(v, w1, 1, ts) &&
    WaitingAfter(v, w0, t) && WaitingAfter(v, w1, t)
  }

  ghost function ListsGood(ts: seq<int>): iset<SimState>
  {
    iset s: SimState | ListsOk(s.nodes, s.live0, s.live1, s.wait0, s.wait1, s.t, ts)
  }

  /** Moving the head x of waiting list w of deme k to live list l, with the clock moved to x's height. */
  lemma ActivatedLists(v: seq<NodeRec>, l: seq<int>, lo: seq<int>, w: seq<int>, wo: seq<int>, k: int, t: real, ts: seq<int>)
    requires (k == 0 || k == 1) && |w| > 0 && 0 <= w[0] < |v| && v[w[0]].Consistent() && v[w[0]].nodeType == k
    requires LiveListOk(v, l, k, t) && LiveListOk(v, lo, 1 - k, t)
    requires WaitListOk(v, w, k, ts) && WaitListOk(v, wo, 1 - k, ts)
    requires |l| + |lo| > 0 ==> WaitingAfter(v, w, t)
    requires |wo| > 0 ==> v[w[0]].height <= v[wo[0]].height
    ensures var h := v[w[0]].height;
      if k == 0 then SimState(v, l + [w[0]], lo, w[1..], wo, h) in ListsGood(ts)
      else SimState(v, lo, l + [w[0]], wo, w[1..], h) in ListsGood(ts)
  {
    var x := w[0];
    var h := v[x].height;
    assert |l| + |lo| > 0 ==> t <= h;
    WaitListTail(v, w, k, ts);
    WaitListAfterHead(v, wo, 1 - k, ts, h);
    ActivatedLiveLists(v, l, x, k, t);
    if |lo| > 0 {
      LiveListLater(v, lo, 1 - k, t, h);
    }
  }

  /** Activating the youngest waiting sample keeps the invariant. */
  lemma ActivatePreserves(s: SimState, hs: seq<real>, ts: seq<int>)
    requires Inv(s, hs, ts) && NextWaitingType(s) != -1
    ensures Activate(s, NextWaitingType(s)) in Invariant(hs, ts)
  {
    var k := NextWaitingType(s);
    ActivatePoolOk(s, k, |hs|);
    ActivateInRange(s, k);
    ActivateListsOk(s, k, hs, ts);
    ActivateShape(s, k);
    var s' := Activate(s, k);
    assert ListsOk(s'.nodes, s'.live0, s'.live1, s'.wait0, s'.wait1, s'.t, ts);
  }

  // One iteration

  /** An event no later than the youngest waiting sample leaves every waiting sample after it. */
  lemma WaitingFrom(s: SimState, ts: seq<int>, time: real)
    requires InRange(s) && WaitListOk(s.nodes, s.wait0, 0, ts) && WaitListOk(s.nodes, s.wait1, 1, ts)
    requires NextWaitingType(s) != -1 ==> time <= s.nodes[WaitOf(s, NextWaitingType(s))[0]].height
    ensures WaitingAfter(s.nodes, s.wait0, time) && WaitingAfter(s.nodes, s.wait1, time)
  {
    WaitListAfterHead(s.nodes, s.wait0, 0, ts, time);
    WaitListAfterHead(s.nodes, s.wait1, 1, ts, time);
  }

  /** The failures of placing an event: a draw from an empty range, or the endless null event. */
  predicate TreeError(e: Error)
  {
    e == IllegalArgument || e == NoProgress
  }

  /** The failures of one iteration: those of placing the event, or the fall-through of getNextEvent. */
  predicate StepError(e: Error)
  {
    e == Runtime || TreeError(e)
  }

  /** The failures of the running loop: those of an iteration, or running out of draws. */
  predicate LoopError(e: Error)
  {
    e == DrawsExhausted || StepError(e)
  }

  /** Placing an event on the tree keeps the invariant; it fails only on a draw from an empty range or the endless null event. */
  lemma UpdateTreePreserves(s: SimState, e: Event, d: Draw, hs: seq<real>, ts: seq<int>)
    requires Inv(s, hs, ts) && ValidEvent(e)
    requires !e.NullEvent? ==> s.t <= e.time && WaitingAfter(s.nodes, s.wait0, e.time) && WaitingAfter(s.nodes, s.wait1, e.time)
    ensures UpdateTree(s, e, d).Ok? ==> UpdateTree(s, e, d).value in Invariant(hs, ts)
    ensures UpdateTree(s, e, d).Fail? ==> TreeError(UpdateTree(s, e, d).error)
  {
    match e
    case Coalescence(time) =>
      if |s.live1| >= 2 {
        CoalescePreserves(s, time, d, hs, ts);
      }
    case Migration(from, to, time) =>
      if |LiveOf(s, from)| > 0 {
        MigratePreserves(s, from, to, time, d, hs, ts);
      }
    case NullEvent =>
  }

  /** The rest of an iteration keeps the invariant when the event comes no earlier than the current time. */
  lemma AfterEventPreserves(s: SimState, e: Result<Event>, d: Draw, hs: seq<real>, ts: seq<int>)
    requires Inv(s, hs, ts) && (e.Ok? ==> ValidEvent(e.value))
    requires e.Ok? && !e.value.NullEvent? ==> s.t <= e.value.time
    requires e.Fail? ==> e.error == Runtime
    ensures AfterEvent(s, e, d).Ok? ==> AfterEvent(s, e, d).value in Invariant(hs, ts)
    ensures AfterEvent(s, e, d).Fail? ==> StepError(AfterEvent(s, e, d).error)
  {
    if e.Ok? {
      var k := NextWaitingType(s);
      if k != -1 && Precedes(s.nodes[WaitOf(s, k)[0]].height, e.value) {
        ActivatePreserves(s, hs, ts);
      } else {
        if !e.value.NullEvent? {
          WaitingFrom(s, ts, e.value.time);
        }
        UpdateTreePreserves(s, e.value, d, hs, ts);
      }
    }
  }

  /**
   * One iteration keeps the invariant, and it never fails on the list
   * lookups: a failure is the fall-through of getNextEvent, a draw from an
   * empty range, or the endless null event.
   */
  lemma StepPreserves(s: SimState, m: TransitionModel, d: Draw, hs: seq<real>, ts: seq<int>)
    requires Inv(s, hs, ts) && d.wait >= 0.0
    ensures Step(s, m, d).Ok? ==> Step(s, m, d).value in Invariant(hs, ts)
    ensures Step(s, m, d).Fail? ==> StepError(Step(s, m, d).error)
  {
    var p := UpdatePropensities(m, |s.live1|, |s.live0|);
    AfterEventPreserves(s, GetNextEvent(p, Total(p), s.t, d), d, hs, ts);
  }

  /**
   * An event the state can carry out: it comes no earlier than the current
   * time, its lineages exist, and a null event leaves a waiting sample.
   */
  predicate Feasible(s: SimState, e: Result<Event>)
  {
    && e.Ok? && ValidEvent(e.value)
    && (!e.value.NullEvent? ==> s.t <= e.value.time)
    && HasLineages(e.value, |s.live1|, |s.live0|)
    && (e.value.NullEvent? ==> |s.wait0| + |s.wait1| > 0)
  }

  /** The rest of an iteration succeeds when the event can be carried out on the lineages present. */
  lemma AfterEventSucceeds(s: SimState, e: Result<Event>, d: Draw, hs: seq<real>, ts: seq<int>)
    requires s in Invariant(hs, ts) && Feasible(s, e)
    ensures AfterEvent(s, e, d).Ok?
  {
    assert Inv(s, hs, ts);
    var k := NextWaitingType(s);
    if !(k != -1 && Precedes(s.nodes[WaitOf(s, k)[0]].height, e.value)) {
      WaitingFrom(s, ts, e.value.time);
      match e.value
      case Coalescence(time) => CoalescePreserves(s, time, d, hs, ts);
      case Migration(from, to, time) => MigratePreserves(s, from, to, time, d, hs, ts);
    }
  }

  /**
   * With a positive seedbank rate and ratio K, uniform draws in [0, 1) and
   * non-negative waiting times, an iteration of the running loop never
   * fails: every event it draws has the lineages it needs.
   */
  lemma StepSucceeds(s: SimState, m: TransitionModel, d: Draw, hs: seq<real>, ts: seq<int>)
    requires s in Invariant(hs, ts) && d.wait >= 0.0 && 0.0 <= d.u < 1.0 && PositiveRates(m)
    requires |s.live0| + |s.live1| > 1 || |s.wait0| + |s.wait1| > 0
    ensures Step(s, m, d).Ok?
  {
    var p := UpdatePropensities(m, |s.live1|, |s.live0|);
    var e := GetNextEvent(p, Total(p), s.t, d);
    PropensitiesMatch(m, |s.live1|, |s.live0|);
    DrawnEvent(p, s.t, d, |s.live1|, |s.live0|);
    assert Feasible(s, e);
    AfterEventSucceeds(s, e, d, hs, ts);
  }

  /**
   * The event getNextEvent draws from propensities that vanish exactly when
   * their lineages are missing: the null event when there is no lineage,
   * otherwise an event whose lineages exist.
   */
  lemma DrawnEvent(p: Propensities, t: real, d: Draw, kActive: nat, kDormant: nat)
    requires 0.0 <= d.u < 1.0
    requires MatchesLineages(p, kActive, kDormant)
    ensures var e := GetNextEvent(p, Total(p), t, d);
      e.Ok? && (e.value.NullEvent? <==> kActive + kDormant == 0) && HasLineages(e.value, kActive, kDormant)
  {
    if Total(p) > 0.0 {
      ScaledEventNeeds(p, t + d.wait, d.u, kActive, kDormant);
    }
  }

  /** EventNeeds for the uniform u in [0, 1) scaled by the total propensity, as getNextEvent draws it. */
  lemma ScaledEventNeeds(p: Propensities, time: real, u: real, kActive: nat, kDormant: nat)
    requires 0.0 <= u < 1.0 && Total(p) > 0.0
    requires MatchesLineages(p, kActive, kDormant)
    ensures SelectEvent(p, time, u * Total(p)).Ok? && HasLineages(SelectEvent(p, time, u * Total(p)).value, kActive, kDormant)
  {
    var u0 := ScaledBelow(u, p);
    EventNeeds(p, time, u0, kActive, kDormant);
  }

  /**
   * With a scaled uniform below the total propensity, and propensities that
   * vanish exactly when their lineages are missing, the selected event
   * needs only lineages that exist: two active ones for a coalescence, one
   * of the source deme for a migration.
   */
  lemma EventNeeds(p: Propensities, time: real, u0: real, kActive: nat, kDormant: nat)
    requires 0.0 <= u0 < Total(p)
    requires MatchesLineages(p, kActive, kDormant)
    ensures SelectEvent(p, time, u0).Ok? && HasLineages(SelectEvent(p, time, u0).value, kActive, kDormant)
  {
  }

  /** The lineages an event needs exist: two active ones for a coalescence, one of the source deme for a migration. */
  predicate HasLineages(e: Event, kActive: nat, kDormant: nat)
  {
    && (e.Coalescence? ==> kActive >= 2)
    && (e.Migration? && e.fromType == 0 ==> kDormant >= 1)
    && (e.Migration? && e.fromType == 1 ==> kActive >= 1)
  }

  /** A uniform in [0, 1) scaled by a positive total stays in [0, total). */
  lemma ScaledBelow(u: real, p: Propensities) returns (u0: real)
    requires 0.0 <= u < 1.0 && Total(p) > 0.0
    ensures u0 == u * Total(p) && 0.0 <= u0 < Total(p)
  {
    u0 := u * Total(p);
  }

  /**
   * getNextEvent's intervals: the scaled uniform selects the first event
   * whose cumulative propensity exceeds it, and past all of them the Java
   * code throws.
   */
  lemma EventIntervals(p: Propensities, time: real, u0: real)
    requires p.coalesce >= 0.0 && p.fromDormant >= 0.0 && p.fromActive >= 0.0
    ensures SelectEvent(p, time, u0) == Ok(Coalescence(time)) <==> u0 < p.coalesce
    ensures SelectEvent(p, time, u0) == Ok(Migration(0, 1, time)) <==>
      p.coalesce <= u0 < p.coalesce + p.fromDormant
    ensures SelectEvent(p, time, u0) == Ok(Migration(1, 0, time)) <==>
      p.coalesce + p.fromDormant <= u0 < p.coalesce + p.fromDormant + p.fromActive
    ensures SelectEvent(p, time, u0).Fail? <==> Total(p) <= u0
  {
  }

  /** A non-positive total propensity gives the null event, a positive one never does. */
  lemma NullEventIff(p: Propensities, total: real, t: real, d: Draw)
    ensures GetNextEvent(p, total, t, d) == Ok(NullEvent) <==> total <= 0.0
  {
  }

  // ---------------------------------------------------------------------
  // Building the starting state and running the loop

  /** A leaf type the Java list lookup accepts. */
  predicate BinaryTypes(ts: seq<int>)
  {
    forall i :: 0 <= i < |ts| ==> ts[i] == 0 || ts[i] == 1
  }

  /** The height of node x as the waiting-sample comparator reads it. */
  function HeightKey(hs: seq<real>): int -> real
  {
    x => if 0 <= x < |hs| then hs[x] else 0.0
  }

  /** The node arena before any event: one leaf per sample, numbered in sample order. */
  ghost predicate LeavesOnly(v: seq<NodeRec>, hs: seq<real>, ts: seq<int>)
  {
    |v| == |hs| == |ts| && forall i :: 0 <= i < |v| ==> v[i] == Leaf(i, hs[i], ts[i])
  }

  /** A waiting list built from the samples of deme k, sorted by height. */
  ghost predicate SampleList(w: seq<int>, k: int, hs: seq<real>, ts: seq<int>)
  {
    |hs| == |ts| && SortedBy(w, HeightKey(hs)) &&
    forall j :: 0 <= j < |w| ==> 0 <= w[j] < |ts| && ts[w[j]] == k
  }

  lemma InitialArena(v: seq<NodeRec>, hs: seq<real>, ts: seq<int>)
    requires LeavesOnly(v, hs, ts)
    ensures Arena(v, hs, ts)
  {
    forall i | 0 <= i < |v| ensures NodeOk(v, i, hs, ts) {
      assert v[i] == Leaf(i, hs[i], ts[i]);
      assert [v[i].height] + v[i].changeTimes == [hs[i]];
    }
  }

  lemma InitialPool(v: seq<NodeRec>, P: multiset<int>, size: int, n: int)
    requires |v| == n == size && forall i :: 0 <= i < |v| ==> v[i].parent == -1
    requires forall x :: P[x] == (if 0 <= x < n then 1 else 0)
    ensures PoolInv(v, P, size, n)
  {
  }

  lemma InitialWaitList(v: seq<NodeRec>, w: seq<int>, k: int, hs: seq<real>, ts: seq<int>)
    requires LeavesOnly(v, hs, ts) && SampleList(w, k, hs, ts)
    ensures WaitListOk(v, w, k, ts)
  {
    forall j | 0 <= j < |w| ensures v[w[j]].changeCount == 0 {
      assert v[w[j]] == Leaf(w[j], hs[w[j]], ts[w[j]]);
    }
    forall i, j | 0 <= i < j < |w| ensures v[w[i]].height <= v[w[j]].height {
      assert HeightKey(hs)(w[i]) <= HeightKey(hs)(w[j]);
      assert v[w[i]] == Leaf(w[i], hs[w[i]], ts[w[i]]);
      assert v[w[j]] == Leaf(w[j], hs[w[j]], ts[w[j]]);
    }
  }

  lemma InitialInRange(v: seq<NodeRec>, w0: seq<int>, w1: seq<int>, hs: seq<real>, ts: seq<int>)
    requires LeavesOnly(v, hs, ts) && SampleList(w0, 0, hs, ts) && SampleList(w1, 1, hs, ts)
    ensures InRange(SimState(v, [], [], w0, w1, 0.0))
  {
  }

  lemma InitialPoolOk(v: seq<NodeRec>, w0: seq<int>, w1: seq<int>, hs: seq<real>, ts: seq<int>)
    requires LeavesOnly(v, hs, ts)
    requires forall x :: (multiset(w0) + multiset(w1))[x] == (if 0 <= x < |hs| then 1 else 0)
    requires |w0| + |w1| == |hs|
    ensures PoolOk(SimState(v, [], [], w0, w1, 0.0), |hs|)
  {
    var s := SimState(v, [], [], w0, w1, 0.0);
    assert Pool(s) == multiset(w0) + multiset(w1);
    forall i | 0 <= i < |v| ensures v[i].parent == -1 {
      assert v[i] == Leaf(i, hs[i], ts[i]);
    }
    InitialPool(v, Pool(s), PoolSize(s), |hs|);
  }

  /** The starting state satisfies the loop invariant. */
  lemma InitialInv(v: seq<NodeRec>, w0: seq<int>, w1: seq<int>, hs: seq<real>, ts: seq<int>)
    requires LeavesOnly(v, hs, ts) && SampleList(w0, 0, hs, ts) && SampleList(w1, 1, hs, ts)
    requires forall x :: (multiset(w0) + multiset(w1))[x] == (if 0 <= x < |hs| then 1 else 0)
    requires |w0| + |w1| == |hs|
    ensures Inv(SimState(v, [], [], w0, w1, 0.0), hs, ts)
  {
    InitialArena(v, hs, ts);
    InitialPoolOk(v, w0, w1, hs, ts);
    InitialWaitList(v, w0, 0, hs, ts);
    InitialWaitList(v, w1, 1, hs, ts);
    InitialInRange(v, w0, w1, hs, ts);
  }

  /** The numbers of the samples of deme k, in sample order. */
  function Samples(ts: seq<int>, k: int): (r: seq<int>)
    ensures forall j :: 0 <= j < |r| ==> 0 <= r[j] < |ts| && ts[r[j]] == k
    decreases |ts|
  {
    if |ts| == 0 then []
    else
      var last := |ts| - 1;
      Samples(ts[..last], k) + (if ts[last] == k then [last] else [])
  }

  /** The leaf arena: node i is the leaf of sample i. */
  function LeafArena(hs: seq<real>, ts: seq<int>): (v: seq<NodeRec>)
    requires |hs| == |ts|
    ensures LeavesOnly(v, hs, ts)
  {
    seq(|hs|, i requires 0 <= i < |hs| => Leaf(i, hs[i], ts[i]))
  }

  /** The state the simulation loop starts from: the leaves, both waiting lists sorted by height, nothing live, time 0. */
  function Start(hs: seq<real>, ts: seq<int>): SimState
    requires |hs| == |ts|
  {
    SimState(LeafArena(hs, ts), [], [], SortBy(Samples(ts, 0), HeightKey(hs)), SortBy(Samples(ts, 1), HeightKey(hs)), 0.0)
  }

  lemma BinaryPrefix(ts: seq<int>, l: int)
    requires BinaryTypes(ts) && 0 <= l <= |ts|
    ensures BinaryTypes(ts[..l])
  {
    forall i | 0 <= i < l ensures ts[..l][i] == 0 || ts[..l][i] == 1 {
      assert ts[..l][i] == ts[i];
    }
  }

  /** With binary types, every sample is in exactly one of the two sample lists. */
  lemma SamplesPartition(ts: seq<int>)
    requires BinaryTypes(ts)
    ensures forall x :: (multiset(Samples(ts, 0)) + multiset(Samples(ts, 1)))[x] == (if 0 <= x < |ts| then 1 else 0)
  {
    forall x ensures (multiset(Samples(ts, 0)) + multiset(Samples(ts, 1)))[x] == (if 0 <= x < |ts| then 1 else 0) {
      SamplesCount(ts, x);
    }
  }

  lemma SamplesCount(ts: seq<int>, x: int)
    requires BinaryTypes(ts)
    ensures multiset(Samples(ts, 0))[x] + multiset(Samples(ts, 1))[x] == (if 0 <= x < |ts| then 1 else 0)
  {
    SamplesOccurrences(ts, 0, x);
    SamplesOccurrences(ts, 1, x);
    OccurrencesPartition(ts, x);
  }

  /** How many times x is listed as a sample of type k, counted without sequences. */
  function Occurrences(ts: seq<int>, k: int, x: int): nat
    decreases |ts|
  {
    if |ts| == 0 then 0
    else Occurrences(ts[..|ts| - 1], k, x) + (if ts[|ts| - 1] == k && x == |ts| - 1 then 1 else 0)
  }

  lemma {:induction false} SamplesOccurrences(ts: seq<int>, k: int, x: int)
    ensures multiset(Samples(ts, k))[x] == Occurrences(ts, k, x)
    decreases |ts|
  {
    if |ts| > 0 {
      SamplesOccurrences(ts[..|ts| - 1], k, x);
      SamplesStep(ts, k, x);
    }
  }

  lemma {:induction false} OccurrencesPartition(ts: seq<int>, x: int)
    requires BinaryTypes(ts)
    ensures Occurrences(ts, 0, x) + Occurrences(ts, 1, x) == (if 0 <= x < |ts| then 1 else 0)
    decreases |ts|
  {
    if |ts| > 0 {
      BinaryPrefix(ts, |ts| - 1);
      OccurrencesPartition(ts[..|ts| - 1], x);
      assert ts[|ts| - 1] == 0 || ts[|ts| - 1] == 1;
    }
  }

  /** How often x occurs in a sample list, in terms of the list without the last sample. */
  lemma SamplesStep(ts: seq<int>, k: int, x: int)
    requires |ts| > 0
    ensures multiset(Samples(ts, k))[x] ==
      multiset(Samples(ts[..|ts| - 1], k))[x] + (if ts[|ts| - 1] == k && x == |ts| - 1 then 1 else 0)
  {
    var last := |ts| - 1;
    var tail := if ts[last] == k then [last] else [];
    assert Samples(ts, k) == Samples(ts[..last], k) + tail;
    assert multiset(Samples(ts, k)) == multiset(Samples(ts[..last], k)) + multiset(tail);
  }

  lemma {:induction false} SamplesLength(ts: seq<int>)
    requires BinaryTypes(ts)
    ensures |Samples(ts, 0)| + |Samples(ts, 1)| == |ts|
    decreases |ts|
  {
    if |ts| > 0 {
      BinaryPrefix(ts, |ts| - 1);
      SamplesLength(ts[..|ts| - 1]);
    }
  }

  /** The starting state satisfies the loop invariant, and its waiting lists are the sorted sample lists. */
  lemma StartIsValid(hs: seq<real>, ts: seq<int>)
    requires |hs| == |ts| && BinaryTypes(ts)
    ensures Start(hs, ts) in Invariant(hs, ts)
    ensures SampleList(Start(hs, ts).wait0, 0, hs, ts) && SampleList(Start(hs, ts).wait1, 1, hs, ts)
  {
    var w0 := Samples(ts, 0);
    var w1 := Samples(ts, 1);
    var s0 := SortBy(w0, HeightKey(hs));
    var s1 := SortBy(w1, HeightKey(hs));
    SamplesPartition(ts);
    SamplesLength(ts);
    SortedMembers(w0, s0, 0, ts);
    SortedMembers(w1, s1, 1, ts);
    assert multiset(s0) + multiset(s1) == multiset(w0) + multiset(w1);
    InitialInv(LeafArena(hs, ts), s0, s1, hs, ts);
  }

  /**
   * The leaf loop and the sort of simulateTree: sample l becomes leaf node
   * l in the waiting list of its type, and each list is then sorted by
   * height. A type other than 0 or 1 makes the list lookup throw.
   */
  method CreateLeaves(hs: seq<real>, ts: seq<int>) returns (r: Result<SimState>)
    requires |hs| == |ts|
    ensures r.Fail? <==> !BinaryTypes(ts)
    ensures r.Fail? ==> r.error == IndexOutOfBounds
    ensures r.Ok? ==> r.value == Start(hs, ts)
  {
    var nodes: seq<NodeRec> := [];
    var w0: seq<int> := [];
    var w1: seq<int> := [];
    var l := 0;
    while l < |hs|
      invariant 0 <= l <= |hs| && |nodes| == l
      invariant forall i :: 0 <= i < l ==> nodes[i] == Leaf(i, hs[i], ts[i])
      invariant forall i :: 0 <= i < l ==> ts[i] == 0 || ts[i] == 1
      invariant w0 == Samples(ts[..l], 0) && w1 == Samples(ts[..l], 1)
    {
      assert ts[..l + 1][..l] == ts[..l];
      if ts[l] == 0 {
        w0 := w0 + [l];
      } else if ts[l] == 1 {
        w1 := w1 + [l];
      } else {
        return Fail(IndexOutOfBounds);
      }
      nodes := nodes + [Leaf(l, hs[l], ts[l])];
      l := l + 1;
    }
    assert ts[..l] == ts;
    assert nodes == LeafArena(hs, ts);
    r := Ok(SimState(nodes, [], [], SortBy(w0, HeightKey(hs)), SortBy(w1, HeightKey(hs)), 0.0));
  }

  /** A permutation of a list of deme-k samples holds deme-k samples. */
  lemma SortedMembers(w: seq<int>, s: seq<int>, k: int, ts: seq<int>)
    requires multiset(s) == multiset(w)
    requires forall j :: 0 <= j < |w| ==> 0 <= w[j] < |ts| && ts[w[j]] == k
    ensures forall j :: 0 <= j < |s| ==> 0 <= s[j] < |ts| && ts[s[j]] == k
  {
    forall j | 0 <= j < |s| ensures 0 <= s[j] < |ts| && ts[s[j]] == k {
      assert s[j] in multiset(w);
      var i :| 0 <= i < |w| && w[i] == s[j];
    }
  }

  // ---------------------------------------------------------------------
  // The finished tree

  /**
   * What the simulation promises of the tree it returns: 2n - 1 nodes
   * whose last one is the root, the only node without a parent; leaf i
   * keeps sample i's height and type; every internal node is active and
   * has two children; every branch is time-ordered and ends in its parent's type,
   * so the whole tree passes the validity checks of SeedbankTree.
   */
  ghost predicate GoodTree(tr: SimTree, hs: seq<real>, ts: seq<int>)
  {
    var v := tr.nodes;
    var n := |hs|;
    |hs| == |ts| && n >= 1 && |v| == 2 * n - 1 && tr.root == |v| - 1 &&
    Shaped(v) && ParentsConsistent(v) && IsValidTree(v, tr.root) &&
    AllBranchesOrdered(v) && AllTypesMatch(v) &&
    v[tr.root].parent == -1 &&
    (forall i :: 0 <= i < |v| && i != tr.root ==> v[i].parent != -1) &&
    (forall i :: 0 <= i < n ==> v[i].children == [] && v[i].height == hs[i] && v[i].nodeType == ts[i]) &&
    (forall i :: n <= i < |v| ==> |v[i].children| == 2 && v[i].nodeType == 1)
  }

  /** The building invariant on nodes gives the arena-wide conditions of a valid tree. */
  lemma ArenaIsLocallyValid(v: seq<NodeRec>, hs: seq<real>, ts: seq<int>)
    requires Arena(v, hs, ts)
    ensures Shaped(v) && ParentsConsistent(v) && AllBranchesOrdered(v) && AllTypesMatch(v)
  {
    assert Shaped(v) by {
      forall i | 0 <= i < |v|
        ensures v[i].Consistent() && -1 <= v[i].parent < |v|
        ensures forall k :: 0 <= k < |v[i].children| ==> 0 <= v[i].children[k] < |v|
      {
        assert NodeOk(v, i, hs, ts);
      }
    }
    forall i, k | 0 <= i < |v| && 0 <= k < |v[i].children| ensures v[v[i].children[k]].parent == i {
      assert NodeOk(v, i, hs, ts);
    }
    forall i | 0 <= i < |v| && v[i].parent != -1
      ensures BranchTimesOrdered(v[v[i].parent].height, v[i])
      ensures FinalType(v[i].nodeType, v[i].changeTypes) == v[v[i].parent].nodeType
    {
      assert NodeOk(v, i, hs, ts);
    }
  }

  /** Leaves keep their samples and internal nodes are active with two children. */
  lemma ArenaNodes(v: seq<NodeRec>, hs: seq<real>, ts: seq<int>)
    requires Arena(v, hs, ts)
    ensures forall i :: 0 <= i < |hs| ==> v[i].children == [] && v[i].height == hs[i] && v[i].nodeType == ts[i]
    ensures forall i :: |hs| <= i < |v| ==> |v[i].children| == 2 && v[i].nodeType == 1
  {
    forall i | 0 <= i < |v| ensures i < |hs| ==> v[i].children == [] && v[i].height == hs[i] && v[i].nodeType == ts[i]
      ensures i >= |hs| ==> |v[i].children| == 2 && v[i].nodeType == 1
    {
      assert NodeOk(v, i, hs, ts);
    }
  }

  /**
   * When the loop stops with at least one sample, one lineage is left; it
   * is the last node of the 2n - 1 and the only one without a parent.
   */
  lemma FinalRoot(s: SimState, hs: seq<real>, ts: seq<int>)
    requires InRange(s) && PoolOk(s, |hs|) && |hs| >= 1
    requires |s.live0| + |s.live1| <= 1 && |s.wait0| + |s.wait1| == 0
    ensures |s.nodes| == 2 * |hs| - 1 && RootOf(s) == |s.nodes| - 1
    ensures forall i :: 0 <= i < |s.nodes| ==> (s.nodes[i].parent == -1 <==> i == RootOf(s))
  {
    var v := s.nodes;
    var x := RootOf(s);
    assert PoolSize(s) == 1;
    assert Pool(s) == multiset{x} by {
      if |s.live0| > 0 {
        assert s.live0 == [x] && s.live1 == [];
      } else {
        assert s.live1 == [x] && s.live0 == [];
      }
      assert s.wait0 == [] && s.wait1 == [];
    }
    assert |v| == 2 * |hs| - 1;
    assert 0 <= x < |v|;
    forall i | 0 <= i < |v| ensures v[i].parent == -1 <==> i == x {
      assert Pool(s)[i] > 0 <==> i == x;
    }
    if |hs| < |v| {
      assert v[|v| - 1].parent == -1;
    }
  }

  /** The loop's final state, read as a tree, is a good tree. */
  lemma FinalTree(s: SimState, hs: seq<real>, ts: seq<int>)
    requires s in Invariant(hs, ts) && |hs| >= 1 && !Running(s)
    ensures RootOf(s) != -1 && SimTree(s.nodes, RootOf(s)) in GoodTrees(hs, ts)
  {
    assert Inv(s, hs, ts);
    FinalRoot(s, hs, ts);
    FinishedArena(s.nodes, RootOf(s), hs, ts);
  }

  /** A finished arena, 2n-1 nodes with the last one the only parentless one, is a good tree. */
  lemma FinishedArena(v: seq<NodeRec>, root: int, hs: seq<real>, ts: seq<int>)
    requires Arena(v, hs, ts) && |hs| == |ts| && |hs| >= 1
    requires |v| == 2 * |hs| - 1 && root == |v| - 1
    requires forall i :: 0 <= i < |v| ==> (v[i].parent == -1 <==> i == root)
    ensures SimTree(v, root) in GoodTrees(hs, ts)
  {
    ArenaIsLocallyValid(v, hs, ts);
    ArenaNodes(v, hs, ts);
    LocalConditionsGiveValidity(v, root, |v|);
    assert GoodTree(SimTree(v, root), hs, ts);
  }

  // ---------------------------------------------------------------------
  // The whole simulation

  /** The condition of the simulation loop: more than one lineage, or a sample still waiting. */
  predicate Running(s: SimState)
  {
    |s.live0| + |s.live1| > 1 || |s.wait0| + |s.wait1| > 0
  }

  /** Coalescence keeps list entries inside the arena, which grows by the parent. */
  lemma CoalesceInRange(s: SimState, time: real, d: Draw)
    requires InRange(s)
    ensures Coalesce(s, time, d).Ok? ==> InRange(Coalesce(s, time, d).value)
  {
    if Coalesce(s, time, d).Ok? {
      var l := s.live1;
      var son := Son(l, d);
      var rest := RemoveFirst(l, son);
      var size := |s.nodes|;
      ListRemoveIn(l, son, size);
      var u := CoalescedList(l, Daughter(l, d), son, size);
      forall j | 0 <= j < |u| ensures 0 <= u[j] < size + 1 {
        assert u[j] == size || u[j] == rest[j];
      }
    }
  }

  /** Every step keeps list entries inside the arena. */
  lemma StepInRange(s: SimState, m: TransitionModel, d: Draw)
    requires InRange(s)
    ensures Step(s, m, d).Ok? ==> InRange(Step(s, m, d).value)
  {
    var p := UpdatePropensities(m, |s.live1|, |s.live0|);
    AfterEventInRange(s, GetNextEvent(p, Total(p), s.t, d), d);
  }

  lemma AfterEventInRange(s: SimState, e: Result<Event>, d: Draw)
    requires InRange(s) && (e.Ok? ==> ValidEvent(e.value))
    ensures AfterEvent(s, e, d).Ok? ==> InRange(AfterEvent(s, e, d).value)
  {
    if e.Ok? {
      var k := NextWaitingType(s);
      if k != -1 && Precedes(s.nodes[WaitOf(s, k)[0]].height, e.value) {
        ActivateInRange(s, k);
      } else {
        match e.value
        case Coalescence(time) => CoalesceInRange(s, time, d);
        case Migration(from, to, time) =>
          if |LiveOf(s, from)| > 0 {
            MigrateInRange(s, from, to, time, d);
          }
        case NullEvent =>
      }
    }
  }

  /** The simulation loop, one draw per iteration; it fails when the draws run out while it is still running. */
  function Run(s: SimState, m: TransitionModel, draws: seq<Draw>): Result<SimState>
    requires InRange(s)
    decreases |draws|
  {
    if !Running(s) then Ok(s)
    else if |draws| == 0 then Fail(DrawsExhausted)
    else
      var next := Step(s, m, draws[0]);
      StepInRange(s, m, draws[0]);
      if next.Fail? then Fail(next.error) else Run(next.value, m, draws[1..])
  }

  /** The node the loop leaves behind: the head of the first non-empty live list, -1 when both are empty. */
  function RootOf(s: SimState): int
  {
    if |s.live0| > 0 then s.live0[0] else if |s.live1| > 0 then s.live1[0] else -1
  }

  /** The end of simulateTree: the remaining lineage is the root; with none the RuntimeException. */
  function Finish(r: Result<SimState>): Result<SimTree>
  {
    if r.Fail? then Fail(r.error)
    else if |r.value.live0| > 0 then Ok(SimTree(r.value.nodes, r.value.live0[0]))
    else if |r.value.live1| > 0 then Ok(SimTree(r.value.nodes, r.value.live1[0]))
    else Fail(Runtime)
  }

  lemma StartInRange(hs: seq<real>, ts: seq<int>)
    requires |hs| == |ts|
    ensures InRange(Start(hs, ts))
  {
    var w0 := Samples(ts, 0);
    var w1 := Samples(ts, 1);
    SortedMembers(w0, SortBy(w0, HeightKey(hs)), 0, ts);
    SortedMembers(w1, SortBy(w1, HeightKey(hs)), 1, ts);
  }

  /** simulateTree: the leaves, then the loop from time 0, then the root. */
  function Simulate(m: TransitionModel, hs: seq<real>, ts: seq<int>, draws: seq<Draw>): Result<SimTree>
    requires |hs| == |ts|
  {
    if !BinaryTypes(ts) then Fail(IndexOutOfBounds)
    else
      StartInRange(hs, ts);
      Finish(Run(Start(hs, ts), m, draws))
  }

  /** Rates under which every event the loop draws is one it can carry out. */
  predicate PositiveRates(m: TransitionModel)
  {
    m.rate.value > 0.0 && m.K.value > 0.0
  }

  predicate UniformDraws(draws: seq<Draw>)
  {
    forall i :: 0 <= i < |draws| ==> 0.0 <= draws[i].u < 1.0
  }

  predicate WaitsNonNegative(draws: seq<Draw>)
  {
    forall i :: 0 <= i < |draws| ==> draws[i].wait >= 0.0
  }

  /**
   * The loop keeps the invariant to its end, where at most one lineage is
   * left and nothing waits. It fails only on a getNextEvent fall-through,
   * an empty draw range, the endless null event or when the draws run out;
   * under positive rates and uniform draws in [0, 1) only the last.
   */
  /** The states the loop invariant admits. */
  ghost function Invariant(hs: seq<real>, ts: seq<int>): iset<SimState>
  {
    iset s | Inv(s, hs, ts)
  }

  lemma {:induction false} RunKeeps(s: SimState, m: TransitionModel, draws: seq<Draw>, hs: seq<real>, ts: seq<int>)
    requires s in Invariant(hs, ts) && WaitsNonNegative(draws)
    ensures Run(s, m, draws).Ok? ==> Run(s, m, draws).value in Invariant(hs, ts) && !Running(Run(s, m, draws).value)
    ensures Run(s, m, draws).Fail? ==> LoopError(Run(s, m, draws).error)
    ensures PositiveRates(m) && UniformDraws(draws) && Run(s, m, draws).Fail? ==> Run(s, m, draws).error == DrawsExhausted
    decreases |draws|
  {
    if Running(s) && |draws| > 0 {
      var d := draws[0];
      StepPreserves(s, m, d, hs, ts);
      if PositiveRates(m) && 0.0 <= d.u < 1.0 {
        StepSucceeds(s, m, d, hs, ts);
      }
      var next := Step(s, m, d);
      if next.Ok? {
        assert next.value in Invariant(hs, ts);
        TailDraws(draws);
        RunKeeps(next.value, m, draws[1..], hs, ts);
      }
    }
  }

  lemma TailDraws(draws: seq<Draw>)
    requires |draws| > 0
    ensures WaitsNonNegative(draws) ==> WaitsNonNegative(draws[1..])
    ensures UniformDraws(draws) ==> UniformDraws(draws[1..])
  {
    if WaitsNonNegative(draws) {
      forall i | 0 <= i < |draws| - 1 ensures draws[1..][i].wait >= 0.0 {
        assert draws[1..][i] == draws[i + 1];
      }
    }
    if UniformDraws(draws) {
      forall i | 0 <= i < |draws| - 1 ensures 0.0 <= draws[1..][i].u < 1.0 {
        assert draws[1..][i] == draws[i + 1];
      }
    }
  }

  /** Without samples the loop never runs and simulateTree throws the RuntimeException. */
  lemma NoSamplesFail(m: TransitionModel, hs: seq<real>, ts: seq<int>, draws: seq<Draw>)
    requires |hs| == |ts| == 0
    ensures Simulate(m, hs, ts, draws) == Fail(Runtime)
  {
    var s := Start(hs, ts);
    EmptyStart(hs, ts);
    StartInRange(hs, ts);
    assert !Running(s) && RootOf(s) == -1;
    assert Run(s, m, draws) == Ok(s);
  }

  /** Without samples the starting state has nothing live and nothing waiting. */
  lemma EmptyStart(hs: seq<real>, ts: seq<int>)
    requires |hs| == |ts| == 0
    ensures Start(hs, ts).live0 == [] && Start(hs, ts).live1 == []
    ensures Start(hs, ts).wait0 == [] && Start(hs, ts).wait1 == []
  {
    assert Samples(ts, 0) == [] && Samples(ts, 1) == [];
  }

  /** The trees the simulation may return. */
  ghost function GoodTrees(hs: seq<real>, ts: seq<int>): iset<SimTree>
  {
    iset tr | GoodTree(tr, hs, ts)
  }

  /** Reading the root off a finished run gives a good tree, or the RuntimeException when no lineage is left. */
  lemma FinishGood(r: Result<SimState>, hs: seq<real>, ts: seq<int>)
    requires r.Ok? ==> r.value in Invariant(hs, ts) && !Running(r.value)
    ensures Finish(r).Ok? ==> Finish(r).value in GoodTrees(hs, ts)
    ensures Finish(r).Fail? ==> Finish(r).error == (if r.Fail? then r.error else Runtime)
    ensures Finish(r).Fail? && r.Ok? ==> |hs| == 0
  {
    if r.Ok? {
      if |hs| >= 1 {
        FinalTree(r.value, hs, ts);
        assert Finish(r) == Ok(SimTree(r.value.nodes, RootOf(r.value)));
      } else {
        NoSamplesNoLineages(r.value, hs, ts);
      }
    }
  }

  /** Without samples there is never a lineage. */
  lemma NoSamplesNoLineages(s: SimState, hs: seq<real>, ts: seq<int>)
    requires PoolOk(s, |hs|) && |hs| == 0
    ensures s.live0 == [] && s.live1 == []
  {
    assert PoolSize(s) + |s.nodes| == 0;
  }

  /** What simulateTree promises about its result: the tree returned is a good tree. */
  lemma SimulateIsGood(m: TransitionModel, hs: seq<real>, ts: seq<int>, draws: seq<Draw>)
    requires |hs| == |ts| && WaitsNonNegative(draws)
    ensures Simulate(m, hs, ts, draws).Ok? ==> Simulate(m, hs, ts, draws).value in GoodTrees(hs, ts)
  {
    if BinaryTypes(ts) {
      StartIsValid(hs, ts);
      RunKeeps(Start(hs, ts), m, draws, hs, ts);
      FinishGood(Run(Start(hs, ts), m, draws), hs, ts);
    }
  }

  /** With leaf types 0 and 1 only, every failure of simulateTree is one the loop or the root selection raises. */
  lemma SimulateLoopError(m: TransitionModel, hs: seq<real>, ts: seq<int>, draws: seq<Draw>)
    requires |hs| == |ts| && WaitsNonNegative(draws) && BinaryTypes(ts)
    ensures Simulate(m, hs, ts, draws).Fail? ==> LoopError(Simulate(m, hs, ts, draws).error)
  {
    StartIsValid(hs, ts);
    RunKeeps(Start(hs, ts), m, draws, hs, ts);
    FinishGood(Run(Start(hs, ts), m, draws), hs, ts);
  }

  /** The loop never raises IndexOutOfBounds. */
  lemma LoopErrorNotIndex(e: Error)
    ensures LoopError(e) ==> e != IndexOutOfBounds
  {
  }

  /** A leaf type other than 0 or 1 is exactly what makes simulateTree fail with IndexOutOfBounds. */
  lemma SimulateBadType(m: TransitionModel, hs: seq<real>, ts: seq<int>, draws: seq<Draw>)
    requires |hs| == |ts| && WaitsNonNegative(draws)
    ensures (Simulate(m, hs, ts, draws).Fail? && Simulate(m, hs, ts, draws).error == IndexOutOfBounds) <==> !BinaryTypes(ts)
  {
    if BinaryTypes(ts) {
      SimulateLoopError(m, hs, ts, draws);
      if Simulate(m, hs, ts, draws).Fail? {
        LoopErrorNotIndex(Simulate(m, hs, ts, draws).error);
      }
    }
  }

  /** Every failure of simulateTree is a bad leaf type or one the loop or the root selection raises. */
  lemma SimulateFailures(m: TransitionModel, hs: seq<real>, ts: seq<int>, draws: seq<Draw>)
    requires |hs| == |ts| && WaitsNonNegative(draws)
    ensures Simulate(m, hs, ts, draws).Fail? ==>
      (Simulate(m, hs, ts, draws).error == IndexOutOfBounds || LoopError(Simulate(m, hs, ts, draws).error))
  {
    if BinaryTypes(ts) {
      SimulateLoopError(m, hs, ts, draws);
    }
  }

  /**
   * Under a positive rate and K and uniform draws in [0, 1), simulateTree
   * only fails on a bad leaf type, on running out of draws, or, without
   * samples, with the RuntimeException.
   */
  lemma SimulateOnlyRunsOut(m: TransitionModel, hs: seq<real>, ts: seq<int>, draws: seq<Draw>)
    requires |hs| == |ts| && WaitsNonNegative(draws) && PositiveRates(m) && UniformDraws(draws)
    ensures Simulate(m, hs, ts, draws).Fail? ==>
      Simulate(m, hs, ts, draws).error == IndexOutOfBounds || Simulate(m, hs, ts, draws).error == DrawsExhausted || (Simulate(m, hs, ts, draws).error == Runtime && |ts| == 0)
  {
    if BinaryTypes(ts) {
      StartIsValid(hs, ts);
      RunKeeps(Start(hs, ts), m, draws, hs, ts);
      FinishGood(Run(Start(hs, ts), m, draws), hs, ts);
    }
  }

  /** The simulation loop over the state, one draw per iteration. */
  method RunLoop(s0: SimState, m: TransitionModel, draws: seq<Draw>) returns (r: Result<SimState>)
    requires InRange(s0)
    ensures r == Run(s0, m, draws)
  {
    var s := s0;
    var i := 0;
    while Running(s)
      invariant 0 <= i <= |draws| && InRange(s)
      invariant Run(s, m, draws[i..]) == Run(s0, m, draws)
      decreases |draws| - i
    {
      if i == |draws| {
        return Fail(DrawsExhausted);
      }
      StepInRange(s, m, draws[i]);
      assert draws[i..][1..] == draws[i + 1..];
      var next := Step(s, m, draws[i]);
      if next.Fail? {
        return Fail(next.error);
      }
      s := next.value;
      i := i + 1;
    }
    r := Ok(s);
  }

  /**
   * simulateTree: the leaves and their sorted lists, the loop, then the
   * head of the first non-empty live list as the root.
   */
  method SimulateTree(m: TransitionModel, hs: seq<real>, ts: seq<int>, draws: seq<Draw>) returns (r: Result<SimTree>)
    requires |hs| == |ts|
    ensures r == Simulate(m, hs, ts, draws)
  {
    var start := CreateLeaves(hs, ts);
    if start.Fail? {
      return Fail(start.error);
    }
    StartInRange(hs, ts);
    var run := RunLoop(start.value, m, draws);
    if run.Fail? {
      return Fail(run.error);
    }
    var s := run.value;
    if |s.live0| > 0 {
      r := Ok(SimTree(s.nodes, s.live0[0]));
    } else if |s.live1| > 0 {
      r := Ok(SimTree(s.nodes, s.live1[0]));
    } else {
      r := Fail(Runtime);
    }
  }
}
