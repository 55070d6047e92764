// SeedbankTreeX: the variant of the seedbank tree in which every type
// change is a node of its own. A MIGRATION node has the lineage below the
// change as its left child and a DUMMY node, at the same height, as its
// right child; its nodeType is the type above the change and its
// nodeToType the type below it (backward in time).
//
// Nodes live in an arena indexed by their number; -1 stands for null.

module SeedbankTreesX {
  import opened Wrappers
  import opened SeedbankTrees
  import opened Simulation

  /** SeedbankNodeX.NodeEvent: what happens at a node. */
  datatype NodeEvent = Sample | Migration | Coalescent | Dummy

  /** A SeedbankNodeX: height, parent, children, type, type below a change and event tag. */
  datatype NodeX = NodeX(height: real, parent: int, children: seq<int>, nodeType: int, nodeToType: int, event: NodeEvent)

  /** Every reference in the arena names a node of the arena (or null, for a parent). */
  predicate ShapedX(v: seq<NodeX>)
  {
    forall i :: 0 <= i < |v| ==>
      -1 <= v[i].parent < |v| &&
      forall k :: 0 <= k < |v[i].children| ==> 0 <= v[i].children[k] < |v|
  }

  /** Children point back at their parent. */
  predicate ParentsConsistentX(v: seq<NodeX>)
    requires ShapedX(v)
  {
    forall i, k :: 0 <= i < |v| && 0 <= k < |v[i].children| ==> v[v[i].children[k]].parent == i
  }

  predicate RootedX(v: seq<NodeX>, root: int)
  {
    ShapedX(v) && 0 <= root < |v| && v[root].parent == -1 && ParentsConsistentX(v)
  }

  /** The type every child of n must have: the type below the change at a MIGRATION node, the node's own type elsewhere. */
  function ChildTypeOf(n: NodeX): int
  {
    if n.event == NodeEvent.Migration then n.nodeToType else n.nodeType
  }

  /** timesAreValid(node): no child is higher than the node, recursively; `fuel` bounds the depth. */
  predicate TimesValidX(v: seq<NodeX>, node: int, fuel: nat)
    requires ShapedX(v) && 0 <= node < |v|
    decreases fuel
  {
    fuel == 0 ||
    forall k :: 0 <= k < |v[node].children| ==>
      v[v[node].children[k]].height <= v[node].height && TimesValidX(v, v[node].children[k], fuel - 1)
  }

  /** typesAreValid(node): every child has the type ChildTypeOf(node), recursively. */
  predicate TypesValidX(v: seq<NodeX>, node: int, fuel: nat)
    requires ShapedX(v) && 0 <= node < |v|
    decreases fuel
  {
    fuel == 0 ||
    forall k :: 0 <= k < |v[node].children| ==>
      v[v[node].children[k]].nodeType == ChildTypeOf(v[node]) && TypesValidX(v, v[node].children[k], fuel - 1)
  }

  predicate IsValidTreeX(v: seq<NodeX>, root: int)
    requires ShapedX(v) && 0 <= root < |v|
  {
    TimesValidX(v, root, |v|) && TypesValidX(v, root, |v|)
  }

  method TimesAreValidX(v: seq<NodeX>, node: int, fuel: nat) returns (ok: bool)
    requires ShapedX(v) && 0 <= node < |v|
    ensures ok == TimesValidX(v, node, fuel)
    decreases fuel
  {
    if fuel == 0 {
      return true;
    }
    var children := v[node].children;
    var k := 0;
    while k < |children|
      invariant 0 <= k <= |children|
      invariant forall j :: 0 <= j < k ==> v[children[j]].height <= v[node].height && TimesValidX(v, children[j], fuel - 1)
    {
      var child := children[k];
      if v[child].height > v[node].height {
        return false;
      }
      var below := TimesAreValidX(v, child, fuel - 1);
      if !below {
        return false;
      }
      k := k + 1;
    }
    return true;
  }

  method TypesAreValidX(v: seq<NodeX>, node: int, fuel: nat) returns (ok: bool)
    requires ShapedX(v) && 0 <= node < |v|
    ensures ok == TypesValidX(v, node, fuel)
    decreases fuel
  {
    if fuel == 0 {
      return true;
    }
    var children := v[node].children;
    var k := 0;
    while k < |children|
      invariant 0 <= k <= |children|
      invariant forall j :: 0 <= j < k ==> v[children[j]].nodeType == ChildTypeOf(v[node]) && TypesValidX(v, children[j], fuel - 1)
    {
      var child := children[k];
      if v[node].event == NodeEvent.Migration {
        if v[node].nodeToType != v[child].nodeType {
          return false;
        }
      } else {
        if v[node].nodeType != v[child].nodeType {
          return false;
        }
      }
      var below := TypesAreValidX(v, child, fuel - 1);
      if !below {
        return false;
      }
      k := k + 1;
    }
    return true;
  }

  /** isValid = timesAreValid(root) and then typesAreValid(root). */
  method IsValidX(v: seq<NodeX>, root: int) returns (ok: bool)
    requires ShapedX(v) && 0 <= root < |v|
    ensures ok == IsValidTreeX(v, root)
  {
    ok := TimesAreValidX(v, root, |v|);
    if ok {
      ok := TypesAreValidX(v, root, |v|);
    }
  }

  /** No node with a parent is higher than its parent. */
  predicate LocallyTimed(v: seq<NodeX>)
    requires ShapedX(v)
  {
    forall i :: 0 <= i < |v| && v[i].parent != -1 ==> v[i].height <= v[v[i].parent].height
  }

  /** Every node with a parent has the type its parent demands of its children. */
  predicate LocallyTyped(v: seq<NodeX>)
    requires ShapedX(v)
  {
    forall i :: 0 <= i < |v| && v[i].parent != -1 ==> v[i].nodeType == ChildTypeOf(v[v[i].parent])
  }

  /** When every parent link satisfies the local conditions, the recursive checks accept from any node. */
  lemma {:induction false} LocalGivesValidX(v: seq<NodeX>, node: int, fuel: nat)
    requires ShapedX(v) && ParentsConsistentX(v) && 0 <= node < |v|
    requires LocallyTimed(v) && LocallyTyped(v)
    ensures TimesValidX(v, node, fuel) && TypesValidX(v, node, fuel)
    decreases fuel
  {
    if fuel > 0 {
      forall k | 0 <= k < |v[node].children|
        ensures v[v[node].children[k]].height <= v[node].height && TimesValidX(v, v[node].children[k], fuel - 1)
        ensures v[v[node].children[k]].nodeType == ChildTypeOf(v[node]) && TypesValidX(v, v[node].children[k], fuel - 1)
      {
        var c := v[node].children[k];
        assert v[c].parent == node;
        LocalGivesValidX(v, c, fuel - 1);
      }
    }
  }

  /** A valid tree's root passes each check on to a child: the child is no higher, has the demanded type, and is valid below. */
  lemma {:induction false} ValidXDescends(v: seq<NodeX>, node: int, fuel: nat, k: int)
    requires ShapedX(v) && 0 <= node < |v| && fuel > 0
    requires TimesValidX(v, node, fuel) && TypesValidX(v, node, fuel)
    requires 0 <= k < |v[node].children|
    ensures v[v[node].children[k]].height <= v[node].height && v[v[node].children[k]].nodeType == ChildTypeOf(v[node])
    ensures TimesValidX(v, v[node].children[k], fuel - 1) && TypesValidX(v, v[node].children[k], fuel - 1)
  {
    assert TimesValidX(v, node, fuel) && TypesValidX(v, node, fuel);
  }

  // ---------------------------------------------------------------------
  // updateTree: placing a simulated event on the tree

  /** The arena and the live lineages of the dormant (0) and active (1) demes. */
  datatype SimStateX = SimStateX(nodes: seq<NodeX>, live0: seq<int>, live1: seq<int>)

  function LiveOfX(s: SimStateX, k: int): seq<int>
  {
    if k == 0 then s.live0 else s.live1
  }

  function WithLiveX(s: SimStateX, k: int, l: seq<int>): SimStateX
  {
    if k == 0 then s.(live0 := l) else s.(live1 := l)
  }

  predicate InRangeX(s: SimStateX)
  {
    ShapedX(s.nodes) && ListIn(s.live0, |s.nodes|) && ListIn(s.live1, |s.nodes|)
  }

  /** The arena after a coalescence at `time`: a new COALESCENT node of type 1 joins daughter and son. */
  function CoalescedX(v: seq<NodeX>, dau: int, son: int, time: real): seq<NodeX>
    requires 0 <= dau < |v| && 0 <= son < |v|
  {
    var par := |v|;
    var v1 := v[dau := v[dau].(parent := par)];
    var v2 := v1[son := v1[son].(parent := par)];
    v2 + [NodeX(time, -1, SetRight(SetLeft([], dau), son), 1, 0, Coalescent)]
  }

  /**
   * The arena after lineage `dau` of deme `from` moves to deme `to` at
   * `time`: a MIGRATION node of type `to` (type `from` below it) with the
   * daughter on the left and a new DUMMY node of type `from` on the right.
   */
  function MigratedX(v: seq<NodeX>, dau: int, from: int, to: int, time: real): seq<NodeX>
    requires 0 <= dau < |v|
  {
    var mig := |v|;
    var v1 := v[dau := v[dau].(parent := mig)];
    v1 + [NodeX(time, -1, SetRight(SetLeft([], dau), mig + 1), to, from, NodeEvent.Migration),
          NodeX(time, mig, [], from, 0, Dummy)]
  }

  /** updateTree for a coalescence: two active lineages are replaced by their new parent. */
  function CoalesceX(s: SimStateX, time: real, d: Draw): Result<SimStateX>
    requires InRangeX(s)
  {
    if |s.live1| < 2 then Fail(IllegalArgument)
    else
      var dau := Daughter(s.live1, d);
      var son := Son(s.live1, d);
      if IndexOf(RemoveFirst(s.live1, son), dau) < 0 then Fail(IndexOutOfBounds)
      else Ok(CoalescedStateX(s, dau, son, time))
  }

  /** The state after daughter and son coalesce at `time` into the node numbered |nodes|. */
  function CoalescedStateX(s: SimStateX, dau: int, son: int, time: real): SimStateX
    requires 0 <= dau < |s.nodes| && 0 <= son < |s.nodes|
    requires IndexOf(RemoveFirst(s.live1, son), dau) >= 0
  {
    SimStateX(CoalescedX(s.nodes, dau, son, time), s.live0, CoalescedList(s.live1, dau, son, |s.nodes|))
  }

  /** updateTree for a migration: a random lineage of deme `from` gets a MIGRATION node above it, which joins deme `to`. */
  function MigrateX(s: SimStateX, from: int, to: int, time: real, d: Draw): Result<SimStateX>
    requires InRangeX(s)
  {
    var l := LiveOfX(s, from);
    if |l| == 0 then Fail(IllegalArgument)
    else
      var dau := l[d.pick % |l|];
      var s1 := WithLiveX(s, from, RemoveFirst(l, dau));
      var s2 := WithLiveX(s1, to, LiveOfX(s1, to) + [|s.nodes|]);
      Ok(s2.(nodes := MigratedX(s.nodes, dau, from, to, time)))
  }

  /**
   * SeedbankTreeX.updateTree. A null event takes the migration branch with
   * both types 0: with no dormant lineage the node draw throws; otherwise
   * it places a node at time +infinity and the loop never ends.
   */
  function UpdateTreeX(s: SimStateX, e: Event, d: Draw): Result<SimStateX>
    requires InRangeX(s) && ValidEvent(e)
  {
    match e
    case Coalescence(time) => CoalesceX(s, time, d)
    case Migration(from, to, time) => MigrateX(s, from, to, time, d)
    case NullEvent => if |s.live0| == 0 then Fail(IllegalArgument) else Fail(NoProgress)
  }

  /** Every lineage of list l is a node of type k no higher than `t`. */
  predicate ListTyped(v: seq<NodeX>, l: seq<int>, k: int, t: real)
  {
    forall j :: 0 <= j < |l| ==> 0 <= l[j] < |v| && v[l[j]].nodeType == k && v[l[j]].height <= t
  }

  /** Every live lineage of deme k has type k and no higher point than `t`. */
  predicate LiveTyped(s: SimStateX, t: real)
  {
    ListTyped(s.nodes, s.live0, 0, t) && ListTyped(s.nodes, s.live1, 1, t)
  }

  /** A typed list stays typed in a larger arena that keeps types and heights, at any later time. */
  lemma ListTypedKept(v: seq<NodeX>, w: seq<NodeX>, l: seq<int>, k: int, t: real, time: real)
    requires ListTyped(v, l, k, t) && t <= time && |v| <= |w|
    requires forall i :: 0 <= i < |v| ==> w[i].nodeType == v[i].nodeType && w[i].height == v[i].height
    ensures ListTyped(w, l, k, time)
  {
  }

  lemma ListTypedMember(v: seq<NodeX>, l: seq<int>, k: int, t: real, x: int)
    requires ListTyped(v, l, k, t) && x in l
    ensures 0 <= x < |v| && v[x].nodeType == k && v[x].height <= t
  {
    var j :| 0 <= j < |l| && l[j] == x;
  }

  lemma ListTypedInRange(v: seq<NodeX>, l: seq<int>, k: int, t: real)
    requires ListTyped(v, l, k, t)
    ensures ListIn(l, |v|)
  {
  }

  lemma ListTypedRemove(v: seq<NodeX>, l: seq<int>, x: int, k: int, t: real)
    requires ListTyped(v, l, k, t)
    ensures ListTyped(v, RemoveFirst(l, x), k, t)
  {
    var r := RemoveFirst(l, x);
    forall j | 0 <= j < |r| ensures 0 <= r[j] < |v| && v[r[j]].nodeType == k && v[r[j]].height <= t {
      RemoveFirstKeeps(l, x, r[j]);
    }
  }

  lemma RemoveFirstKeeps(l: seq<int>, x: int, y: int)
    requires y in RemoveFirst(l, x)
    ensures y in l
    decreases |l|
  {
    if |l| > 0 && l[0] != x && y != l[0] {
      RemoveFirstKeeps(l[1..], x, y);
    }
  }

  /** The lineages a coalescence picks are two active lineages. */
  lemma CoalescePicksX(s: SimStateX, d: Draw)
    requires InRangeX(s) && |s.live1| >= 2
    ensures Daughter(s.live1, d) in s.live1 && Son(s.live1, d) in s.live1
  {
    var l := s.live1;
    var n := d.pick2 % (|l| - 1);
    var idx := IndexOf(l, Daughter(l, d));
    assert 0 <= SiblingIndex(n, idx) < |l|;
  }

  /** Members of the list after a coalescence: old members and the new parent. */
  lemma CoalescedListFrom(l: seq<int>, dau: int, son: int, par: int, y: int)
    requires IndexOf(RemoveFirst(l, son), dau) >= 0
    requires y in CoalescedList(l, dau, son, par)
    ensures y == par || y in l
  {
    var rest := RemoveFirst(l, son);
    var i :| 0 <= i < |rest[IndexOf(rest, dau) := par]| && rest[IndexOf(rest, dau) := par][i] == y;
    if i != IndexOf(rest, dau) {
      assert rest[i] == y;
      RemoveFirstKeeps(l, son, y);
    }
  }

  /** Joining two distinct type-1 lineages no higher than `time` under a new node keeps the arena typed and timed. */
  lemma CoalescedArenaX(v: seq<NodeX>, dau: int, son: int, time: real)
    requires ShapedX(v) && LocallyTyped(v) && LocallyTimed(v)
    requires 0 <= dau < |v| && 0 <= son < |v|
    requires v[dau].nodeType == 1 && v[son].nodeType == 1 && v[dau].height <= time && v[son].height <= time
    ensures ShapedX(CoalescedX(v, dau, son, time))
    ensures LocallyTyped(CoalescedX(v, dau, son, time)) && LocallyTimed(CoalescedX(v, dau, son, time))
  {
    var w := CoalescedX(v, dau, son, time);
    var n := |v|;
    assert w[n].children == [dau, son];
    forall i | 0 <= i < |w| ensures -1 <= w[i].parent < |w| && forall k :: 0 <= k < |w[i].children| ==> 0 <= w[i].children[k] < |w| {
      if i < n {
        assert w[i].children == v[i].children;
      }
    }
    forall i | 0 <= i < |w| && w[i].parent != -1
      ensures w[i].nodeType == ChildTypeOf(w[w[i].parent]) && w[i].height <= w[w[i].parent].height
    {
      if i == dau || i == son {
        assert w[i].parent == n;
      } else {
        assert i < n && w[i] == v[i];
        var p := v[i].parent;
        assert w[p].nodeType == v[p].nodeType && w[p].event == v[p].event && w[p].nodeToType == v[p].nodeToType && w[p].height == v[p].height;
      }
    }
  }

  /** Putting a MIGRATION node and its DUMMY over a lineage of type `from` no higher than `time` keeps the arena typed and timed. */
  lemma MigratedArenaX(v: seq<NodeX>, dau: int, from: int, to: int, time: real)
    requires ShapedX(v) && LocallyTyped(v) && LocallyTimed(v)
    requires 0 <= dau < |v| && v[dau].nodeType == from && v[dau].height <= time
    ensures ShapedX(MigratedX(v, dau, from, to, time))
    ensures LocallyTyped(MigratedX(v, dau, from, to, time)) && LocallyTimed(MigratedX(v, dau, from, to, time))
  {
    var w := MigratedX(v, dau, from, to, time);
    var n := |v|;
    assert w[n].children == [dau, n + 1];
    forall i | 0 <= i < |w| ensures -1 <= w[i].parent < |w| && forall k :: 0 <= k < |w[i].children| ==> 0 <= w[i].children[k] < |w| {
      if i < n {
        assert w[i].children == v[i].children;
      }
    }
    forall i | 0 <= i < |w| && w[i].parent != -1
      ensures w[i].nodeType == ChildTypeOf(w[w[i].parent]) && w[i].height <= w[w[i].parent].height
    {
      if i == dau || i == n + 1 {
        assert w[i].parent == n;
      } else {
        assert i < n && w[i] == v[i];
        var p := v[i].parent;
        assert w[p].nodeType == v[p].nodeType && w[p].event == v[p].event && w[p].nodeToType == v[p].nodeToType && w[p].height == v[p].height;
      }
    }
  }

  /** The active list after a coalescence holds old active lineages and the new parent. */
  lemma CoalescedListX(v: seq<NodeX>, l: seq<int>, dau: int, son: int, t: real, time: real)
    requires ShapedX(v) && ListTyped(v, l, 1, t) && t <= time && 0 <= dau < |v| && 0 <= son < |v|
    requires IndexOf(RemoveFirst(l, son), dau) >= 0
    ensures ListTyped(CoalescedX(v, dau, son, time), CoalescedList(l, dau, son, |v|), 1, time)
  {
    var w := CoalescedX(v, dau, son, time);
    var c := CoalescedList(l, dau, son, |v|);
    ListTypedKept(v, w, l, 1, t, time);
    forall j | 0 <= j < |c| ensures 0 <= c[j] < |w| && w[c[j]].nodeType == 1 && w[c[j]].height <= time {
      CoalescedListFrom(l, dau, son, |v|, c[j]);
    }
  }

  /** Joining two active lineages keeps the tree typed and timed and the active list of type 1. */
  lemma CoalescePairKeepsTypes(s: SimStateX, dau: int, son: int, time: real, t: real)
    requires InRangeX(s) && LocallyTyped(s.nodes) && LocallyTimed(s.nodes) && LiveTyped(s, t) && t <= time
    requires dau in s.live1 && son in s.live1 && IndexOf(RemoveFirst(s.live1, son), dau) >= 0
    ensures 0 <= dau < |s.nodes| && 0 <= son < |s.nodes|
    ensures InRangeX(CoalescedStateX(s, dau, son, time))
    ensures LocallyTyped(CoalescedStateX(s, dau, son, time).nodes) && LocallyTimed(CoalescedStateX(s, dau, son, time).nodes)
    ensures LiveTyped(CoalescedStateX(s, dau, son, time), time)
  {
    var v := s.nodes;
    ListTypedMember(v, s.live1, 1, t, dau);
    ListTypedMember(v, s.live1, 1, t, son);
    CoalescedArenaX(v, dau, son, time);
    CoalescedListX(v, s.live1, dau, son, t, time);
    var w := CoalescedX(v, dau, son, time);
    ListTypedKept(v, w, s.live0, 0, t, time);
    ListTypedInRange(w, s.live0, 0, time);
    ListTypedInRange(w, CoalescedList(s.live1, dau, son, |v|), 1, time);
  }

  /** A coalescence keeps the tree typed and timed and the active list of type 1, no higher than the event. */
  lemma CoalesceXKeepsTypes(s: SimStateX, time: real, d: Draw, t: real)
    requires InRangeX(s) && LocallyTyped(s.nodes) && LocallyTimed(s.nodes) && LiveTyped(s, t) && t <= time
    requires CoalesceX(s, time, d).Ok?
    ensures InRangeX(CoalesceX(s, time, d).value)
    ensures LocallyTyped(CoalesceX(s, time, d).value.nodes) && LocallyTimed(CoalesceX(s, time, d).value.nodes)
    ensures LiveTyped(CoalesceX(s, time, d).value, time)
  {
    var dau := Daughter(s.live1, d);
    var son := Son(s.live1, d);
    CoalescePicksX(s, d);
    CoalescePairKeepsTypes(s, dau, son, time, t);
  }

  /** The live lists after a migration: the source list loses the daughter, the destination list gains the migration node. */
  lemma MigratedListsX(v: seq<NodeX>, l: seq<int>, o: seq<int>, dau: int, from: int, to: int, t: real, time: real)
    requires ShapedX(v) && ListTyped(v, l, from, t) && ListTyped(v, o, to, t) && t <= time && 0 <= dau < |v|
    ensures ListTyped(MigratedX(v, dau, from, to, time), RemoveFirst(l, dau), from, time)
    ensures ListTyped(MigratedX(v, dau, from, to, time), o + [|v|], to, time)
  {
    var w := MigratedX(v, dau, from, to, time);
    ListTypedRemove(v, l, dau, from, t);
    ListTypedKept(v, w, RemoveFirst(l, dau), from, t, time);
    ListTypedKept(v, w, o, to, t, time);
    assert w[|v|].nodeType == to && w[|v|].height == time;
  }

  /** A migration keeps the tree typed and timed and each live list of its own type, no higher than the event. */
  lemma MigrateXKeepsTypes(s: SimStateX, from: int, to: int, time: real, d: Draw, t: real)
    requires InRangeX(s) && LocallyTyped(s.nodes) && LocallyTimed(s.nodes) && LiveTyped(s, t) && t <= time
    requires (from == 0 && to == 1) || (from == 1 && to == 0)
    requires MigrateX(s, from, to, time, d).Ok?
    ensures InRangeX(MigrateX(s, from, to, time, d).value)
    ensures LocallyTyped(MigrateX(s, from, to, time, d).value.nodes) && LocallyTimed(MigrateX(s, from, to, time, d).value.nodes)
    ensures LiveTyped(MigrateX(s, from, to, time, d).value, time)
  {
    var v := s.nodes;
    var l := LiveOfX(s, from);
    var o := LiveOfX(s, to);
    var dau := l[d.pick % |l|];
    assert v[dau].nodeType == from && v[dau].height <= t;
    MigratedArenaX(v, dau, from, to, time);
    MigratedListsX(v, l, o, dau, from, to, t, time);
    var r := MigrateX(s, from, to, time, d).value;
    assert r.nodes == MigratedX(v, dau, from, to, time);
    if from == 0 {
      assert r.live0 == RemoveFirst(l, dau) && r.live1 == o + [|v|];
    } else {
      assert r.live1 == RemoveFirst(l, dau) && r.live0 == o + [|v|];
    }
  }

  /**
   * Placing an event keeps the tree typed and timed: if every parent link
   * is typed and timed and every live lineage of deme k has type k and
   * lies no higher than the event, the new arena is typed and timed and
   * the live lists keep their types.
   */
  lemma UpdateTreeXKeepsTypes(s: SimStateX, e: Event, d: Draw, t: real)
    requires InRangeX(s) && ValidEvent(e) && LocallyTyped(s.nodes) && LocallyTimed(s.nodes) && LiveTyped(s, t)
    requires !e.NullEvent? ==> t <= e.time
    requires UpdateTreeX(s, e, d).Ok?
    ensures InRangeX(UpdateTreeX(s, e, d).value)
    ensures LocallyTyped(UpdateTreeX(s, e, d).value.nodes) && LocallyTimed(UpdateTreeX(s, e, d).value.nodes)
    ensures LiveTyped(UpdateTreeX(s, e, d).value, e.time)
  {
    match e {
      case Coalescence(time) => CoalesceXKeepsTypes(s, time, d, t);
      case Migration(from, to, time) => MigrateXKeepsTypes(s, from, to, time, d, t);
    }
  }

  /** A coalescence adds one COALESCENT node of type 1 with the two picked lineages as children, and one active lineage fewer. */
  lemma CoalesceXShape(s: SimStateX, time: real, d: Draw)
    requires InRangeX(s)
    ensures CoalesceX(s, time, d).Ok? <==> |s.live1| >= 2 && IndexOf(RemoveFirst(s.live1, Son(s.live1, d)), Daughter(s.live1, d)) >= 0
    ensures CoalesceX(s, time, d).Ok? ==>
      var w := CoalesceX(s, time, d).value;
      |w.nodes| == |s.nodes| + 1 && w.nodes[|s.nodes|].event == Coalescent && w.nodes[|s.nodes|].nodeType == 1 &&
      w.nodes[|s.nodes|].height == time &&
      w.nodes[|s.nodes|].children == [Daughter(s.live1, d), Son(s.live1, d)] &&
      |w.live1| == |s.live1| - 1 && w.live0 == s.live0
  {
    if CoalesceX(s, time, d).Ok? {
      var son := Son(s.live1, d);
      RemoveFirstLength(s.live1, son, Daughter(s.live1, d));
    }
  }

  lemma RemoveFirstLength(l: seq<int>, x: int, y: int)
    requires IndexOf(RemoveFirst(l, x), y) >= 0 || x in l
    ensures x in l ==> |RemoveFirst(l, x)| == |l| - 1
    decreases |l|
  {
    if |l| > 0 && l[0] != x && x in l {
      assert x in l[1..];
      RemoveFirstLength(l[1..], x, y);
    }
  }

  /**
   * A migration adds a MIGRATION node (type `to`, type `from` below it)
   * over the picked lineage and a DUMMY node of type `from` of zero
   * branch length; the number of live lineages does not change.
   */
  lemma MigrateXShape(s: SimStateX, from: int, to: int, time: real, d: Draw)
    requires InRangeX(s) && (from == 0 || from == 1) && (to == 0 || to == 1) && from != to
    ensures MigrateX(s, from, to, time, d).Ok? <==> |LiveOfX(s, from)| > 0
    ensures MigrateX(s, from, to, time, d).Ok? ==>
      var w := MigrateX(s, from, to, time, d).value;
      var n := |s.nodes|;
      |w.nodes| == n + 2 &&
      w.nodes[n] == NodeX(time, -1, [LiveOfX(s, from)[d.pick % |LiveOfX(s, from)|], n + 1], to, from, NodeEvent.Migration) &&
      w.nodes[n + 1] == NodeX(time, n, [], from, 0, Dummy) &&
      |w.live0| + |w.live1| == |s.live0| + |s.live1| &&
      LiveOfX(w, to) == LiveOfX(s, to) + [n]
  {
    var l := LiveOfX(s, from);
    if |l| > 0 {
      var dau := l[d.pick % |l|];
      RemoveFirstLength(l, dau, dau);
    }
  }
}
