// The event sequence behind the seedbank-tree density: the tree is walked
// from the root down to the tips by repeatedly taking, among the open
// branches, the one whose next event (a change, a coalescence or a sample)
// is the latest, and the types of the open branches are tallied after
// every event.
//
// An open branch is a Cursor: a node and the index of the next change to
// visit on the branch above it, with -1 standing for the node itself.

module DensityEvents {
  import opened Wrappers
  import opened SeedbankNodes
  import opened SeedbankTrees

  datatype Kind = Coalesce | Migrate | Sample

  /**
   * One event: its time, the type below it (`ty`), the type above it
   * (`destType`, set for migrations), its kind and its node.
   */
  datatype SBEvent = SBEvent(time: real, ty: int, destType: int, kind: Kind, node: int)

  datatype Cursor = Cursor(node: int, idx: int)

  /** The arena is a tree hanging from `root`: children point back at their parent and the root has none. */
  predicate RootedArena(v: seq<NodeRec>, root: int)
  {
    Shaped(v) && 0 <= root < |v| && v[root].parent == -1 && ParentsConsistent(v)
  }

  predicate ValidCursor(v: seq<NodeRec>, c: Cursor)
  {
    0 <= c.node < |v| && v[c.node].Consistent() && -1 <= c.idx < v[c.node].changeCount
  }

  predicate AllValid(v: seq<NodeRec>, open: seq<Cursor>)
  {
    forall i :: 0 <= i < |open| ==> ValidCursor(v, open[i])
  }

  /** Time of the event a cursor waits for: the change at idx, or the node itself. */
  function PendingTime(v: seq<NodeRec>, c: Cursor): real
    requires ValidCursor(v, c)
  {
    if c.idx < 0 then v[c.node].height else v[c.node].changeTimes[c.idx]
  }

  /** Type of the stretch of branch an open cursor stands for: the one just above its pending event. */
  function SegmentType(v: seq<NodeRec>, c: Cursor): int
    requires ValidCursor(v, c)
  {
    if c.idx < 0 then v[c.node].nodeType else v[c.node].changeTypes[c.idx]
  }

  /** Type just below change idx: the previous change's type, or the node's own type. */
  function TypeBelow(v: seq<NodeRec>, c: Cursor): int
    requires ValidCursor(v, c) && c.idx >= 0
  {
    if c.idx > 0 then v[c.node].changeTypes[c.idx - 1] else v[c.node].nodeType
  }

  /**
   * The event recorded for cursor c: a sample at a leaf, a coalescence at
   * any other node (both with the node's type), a migration at a change.
   * The destination type of a sample or coalescence is whatever the scan
   * left in the event object and is not described.
   */
  predicate Matches(v: seq<NodeRec>, e: SBEvent, c: Cursor)
    requires ValidCursor(v, c)
  {
    e.node == c.node && e.time == PendingTime(v, c) &&
    if c.idx < 0 then
      e.ty == v[c.node].nodeType && e.kind == (if IsLeaf(v[c.node]) then Sample else Coalesce)
    else
      e.kind == Migrate && e.destType == SegmentType(v, c) && e.ty == TypeBelow(v, c)
  }

  /** Node n sits in the left or right slot of its parent. */
  predicate ChildSlot(v: seq<NodeRec>, n: int)
    requires 0 <= n < |v|
  {
    var p := v[n].parent;
    0 <= p < |v| && (GetLeft(v[p].children) == n || GetRight(v[p].children) == n)
  }

  /**
   * The cursor whose handling opens d: the change above d on the same
   * branch, or, for the top stretch of a branch, the parent's coalescence.
   */
  function Above(v: seq<NodeRec>, d: Cursor): Cursor
    requires ValidCursor(v, d)
  {
    if d.idx + 1 < v[d.node].changeCount then Cursor(d.node, d.idx + 1) else Cursor(v[d.node].parent, -1)
  }

  /** d lies below another change, or on a branch that hangs from its parent's left or right slot. */
  predicate Linked(v: seq<NodeRec>, d: Cursor)
    requires ValidCursor(v, d)
  {
    d.idx + 1 < v[d.node].changeCount || ChildSlot(v, d.node)
  }

  /**
   * The event above d's stretch has been handled in s: d is the root
   * itself, or the cursor above d is in s. The root's own changes are
   * never started.
   */
  predicate Starts(v: seq<NodeRec>, root: int, d: Cursor, s: seq<Cursor>)
    requires ValidCursor(v, d)
  {
    if d.node == root then d.idx == -1 else Linked(v, d) && Above(v, d) in s
  }

  /** `open` is exactly the set of cursors started by s and not yet handled. */
  ghost predicate Frontier(v: seq<NodeRec>, root: int, s: seq<Cursor>, open: seq<Cursor>)
  {
    forall d {:trigger ValidCursor(v, d)} :: ValidCursor(v, d) ==> (d in open <==> d !in s && Starts(v, root, d, s))
  }

  /** Starts and Frontier depend only on which cursors s holds. */
  lemma SameMembers(v: seq<NodeRec>, root: int, s1: seq<Cursor>, s2: seq<Cursor>, open: seq<Cursor>)
    requires forall x :: x in s1 <==> x in s2
    ensures forall d :: ValidCursor(v, d) ==> Starts(v, root, d, s1) == Starts(v, root, d, s2)
    ensures Frontier(v, root, s1, open) <==> Frontier(v, root, s2, open)
  {
  }

  // ----- the changeIdx map, as a list of cursors with distinct nodes -----

  predicate DistinctKeys(open: seq<Cursor>)
  {
    forall i, j :: 0 <= i < j < |open| ==> open[i].node != open[j].node
  }

  /** Position of node n's entry, or -1. */
  function KeyIndex(open: seq<Cursor>, n: int): (k: int)
    ensures -1 <= k < |open|
    ensures k >= 0 ==> open[k].node == n
    ensures k < 0 <==> forall i :: 0 <= i < |open| ==> open[i].node != n
    decreases |open|
  {
    if |open| == 0 then -1
    else if open[0].node == n then 0
    else
      var k := KeyIndex(open[1..], n);
      if k < 0 then -1 else k + 1
  }

  /** HashMap.put: overwrite the entry of c's node, or add one at the end. */
  function Put(open: seq<Cursor>, c: Cursor): seq<Cursor>
  {
    var k := KeyIndex(open, c.node);
    if k >= 0 then open[k := c] else open + [c]
  }

  /** HashMap.remove: drop node n's entry, if any. */
  function RemoveKey(open: seq<Cursor>, n: int): seq<Cursor>
  {
    var k := KeyIndex(open, n);
    if k >= 0 then RemoveAt(open, k) else open
  }

  /** With distinct nodes, an entry is found exactly at its own position. */
  lemma KeyIndexOf(open: seq<Cursor>, i: int)
    requires DistinctKeys(open) && 0 <= i < |open|
    ensures KeyIndex(open, open[i].node) == i
  {
  }

  lemma PutMembers(open: seq<Cursor>, c: Cursor)
    requires DistinctKeys(open)
    ensures DistinctKeys(Put(open, c))
    ensures forall x :: x in Put(open, c) <==> x == c || (x in open && x.node != c.node)
  {
    var k := KeyIndex(open, c.node);
    if k >= 0 {
      var r := open[k := c];
      assert r[k] == c;
      forall x | x in open && x.node != c.node ensures x in r {
        var i :| 0 <= i < |open| && open[i] == x;
        assert r[i] == x;
      }
      forall x | x in r && x != c ensures x in open && x.node != c.node {
        var i :| 0 <= i < |r| && r[i] == x;
        assert i != k && open[i] == x;
      }
    }
  }

  lemma RemoveKeyMembers(open: seq<Cursor>, n: int)
    requires DistinctKeys(open)
    ensures DistinctKeys(RemoveKey(open, n))
    ensures forall x :: x in RemoveKey(open, n) <==> x in open && x.node != n
  {
    var k := KeyIndex(open, n);
    if k >= 0 {
      var r := RemoveAt(open, k);
      RemoveAtShape(open, k);
      forall i, j | 0 <= i < j < |r| ensures r[i].node != r[j].node {
        var i' := if i < k then i else i + 1;
        var j' := if j < k then j else j + 1;
        assert r[i] == open[i'] && r[j] == open[j'] && i' < j';
      }
      forall x | x in open && x.node != n ensures x in r {
        var i :| 0 <= i < |open| && open[i] == x;
        assert i != k;
        assert r[if i < k then i else i - 1] == x;
      }
      forall x | x in r ensures x in open && x.node != n {
        var i :| 0 <= i < |r| && r[i] == x;
        var i' := if i < k then i else i + 1;
        assert open[i'] == x && i' != k;
      }
    }
  }

  lemma PutValid(v: seq<NodeRec>, open: seq<Cursor>, c: Cursor)
    requires AllValid(v, open) && ValidCursor(v, c)
    ensures AllValid(v, Put(open, c))
  {
  }

  lemma RemoveKeyValid(v: seq<NodeRec>, open: seq<Cursor>, n: int)
    requires AllValid(v, open)
    ensures AllValid(v, RemoveKey(open, n))
  {
    var k := KeyIndex(open, n);
    if k >= 0 {
      RemoveAtShape(open, k);
    }
  }

  // ----- lineage counts -----

  function Ind(b: bool): int { if b then 1 else 0 }

  /** Number of open cursors whose stretch has type t. */
  function CountType(v: seq<NodeRec>, open: seq<Cursor>, t: int): int
    requires AllValid(v, open)
    decreases |open|
  {
    if |open| == 0 then 0
    else CountType(v, open[..|open| - 1], t) + Ind(SegmentType(v, open[|open| - 1]) == t)
  }

  /** The lineage counts [dormant, active] of an open list. */
  function Tally(v: seq<NodeRec>, open: seq<Cursor>): seq<int>
    requires AllValid(v, open)
  {
    [CountType(v, open, 0), CountType(v, open, 1)]
  }

  lemma {:induction false} CountConcat(v: seq<NodeRec>, a: seq<Cursor>, b: seq<Cursor>, t: int)
    requires AllValid(v, a) && AllValid(v, b)
    ensures AllValid(v, a + b)
    ensures CountType(v, a + b, t) == CountType(v, a, t) + CountType(v, b, t)
    decreases |b|
  {
    if |b| > 0 {
      var n := |b| - 1;
      assert (a + b)[..|a + b| - 1] == a + b[..n];
      CountConcat(v, a, b[..n], t);
    } else {
      assert a + b == a;
    }
  }

  lemma CountSingle(v: seq<NodeRec>, c: Cursor, t: int)
    requires ValidCursor(v, c)
    ensures CountType(v, [c], t) == Ind(SegmentType(v, c) == t)
  {
    assert [c][..0] == [];
  }

  /** Dropping entry k lowers the count of its type by one. */
  lemma CountRemoveAt(v: seq<NodeRec>, open: seq<Cursor>, k: int, t: int)
    requires AllValid(v, open) && 0 <= k < |open|
    ensures AllValid(v, RemoveAt(open, k))
    ensures CountType(v, RemoveAt(open, k), t) == CountType(v, open, t) - Ind(SegmentType(v, open[k]) == t)
  {
    assert open == open[..k] + [open[k]] + open[k + 1..];
    CountConcat(v, open[..k], [open[k]], t);
    CountConcat(v, open[..k] + [open[k]], open[k + 1..], t);
    CountConcat(v, open[..k], open[k + 1..], t);
    CountSingle(v, open[k], t);
  }

  /** Overwriting entry k moves one unit of count from its old type to the new one. */
  lemma CountUpdate(v: seq<NodeRec>, open: seq<Cursor>, k: int, c: Cursor, t: int)
    requires AllValid(v, open) && 0 <= k < |open| && ValidCursor(v, c)
    ensures AllValid(v, open[k := c])
    ensures CountType(v, open[k := c], t)
            == CountType(v, open, t) - Ind(SegmentType(v, open[k]) == t) + Ind(SegmentType(v, c) == t)
  {
    assert open[k := c] == open[..k] + [c] + open[k + 1..];
    CountRemoveAt(v, open, k, t);
    CountConcat(v, open[..k], [c], t);
    CountConcat(v, open[..k] + [c], open[k + 1..], t);
    CountConcat(v, open[..k], open[k + 1..], t);
    CountSingle(v, c, t);
  }

  lemma CountAppend(v: seq<NodeRec>, open: seq<Cursor>, c: Cursor, t: int)
    requires AllValid(v, open) && ValidCursor(v, c)
    ensures AllValid(v, open + [c])
    ensures CountType(v, open + [c], t) == CountType(v, open, t) + Ind(SegmentType(v, c) == t)
  {
    assert (open + [c])[..|open|] == open;
  }

  /** With every stretch of type 0 or 1, the two counts add up to the number of open branches. */
  lemma {:induction false} CountsCoverOpen(v: seq<NodeRec>, open: seq<Cursor>)
    requires AllValid(v, open)
    requires forall i :: 0 <= i < |open| ==> SegmentType(v, open[i]) == 0 || SegmentType(v, open[i]) == 1
    ensures CountType(v, open, 0) + CountType(v, open, 1) == |open|
    decreases |open|
  {
    if |open| > 0 {
      CountsCoverOpen(v, open[..|open| - 1]);
    }
  }

  /** No type is counted a negative number of times. */
  lemma {:induction false} CountNonNegative(v: seq<NodeRec>, open: seq<Cursor>, t: int)
    requires AllValid(v, open)
    ensures 0 <= CountType(v, open, t) <= |open|
    decreases |open|
  {
    if |open| > 0 {
      CountNonNegative(v, open[..|open| - 1], t);
    }
  }

  // ----- reversal -----

  /** Collections.reverse: the last element first. */
  function Reverse<T>(s: seq<T>): (r: seq<T>)
    ensures |r| == |s|
    ensures forall k :: 0 <= k < |s| ==> r[k] == s[|s| - 1 - k]
  {
    seq(|s|, i requires 0 <= i < |s| => s[|s| - 1 - i])
  }

  /** The events from chronological position k on are those handled first, P[..|P| - k]. */
  lemma ReverseSuffixMembers<T>(s: seq<T>, k: int)
    requires 0 <= k <= |s|
    ensures forall x :: x in Reverse(s)[k..] <==> x in s[..|s| - k]
  {
    var r := Reverse(s)[k..];
    forall x | x in r ensures x in s[..|s| - k] {
      var j :| 0 <= j < |r| && r[j] == x;
      assert s[..|s| - k][|s| - 1 - k - j] == x;
    }
    forall x | x in s[..|s| - k] ensures x in r {
      var j :| 0 <= j < |s| - k && s[j] == x;
      assert r[|s| - 1 - k - j] == x;
    }
  }

  // ----- the state of the walk -----

  /** Every handled cursor is valid and was started by the handled ones, and none is handled twice. */
  ghost predicate Handled(v: seq<NodeRec>, root: int, P: seq<Cursor>)
  {
    (forall i :: 0 <= i < |P| ==> ValidCursor(v, P[i]) && Starts(v, root, P[i], P)) &&
    (forall i, j :: 0 <= i < j < |P| ==> P[i] != P[j])
  }

  /** Each handled cursor was started by those handled before it. */
  ghost predicate InOrder(v: seq<NodeRec>, root: int, P: seq<Cursor>)
  {
    forall i :: 0 <= i < |P| ==> StartedBefore(v, root, P, i)
  }

  ghost predicate StartedBefore(v: seq<NodeRec>, root: int, P: seq<Cursor>, i: int)
    requires 0 <= i < |P|
  {
    ValidCursor(v, P[i]) && Starts(v, root, P[i], P[..i])
  }

  lemma InOrderExtend(v: seq<NodeRec>, root: int, P: seq<Cursor>, c: Cursor)
    requires InOrder(v, root, P) && ValidCursor(v, c) && Starts(v, root, c, P)
    ensures InOrder(v, root, P + [c])
  {
    var P' := P + [c];
    forall i | 0 <= i < |P'| ensures StartedBefore(v, root, P', i) {
      if i < |P| {
        assert P'[..i] == P[..i];
        assert StartedBefore(v, root, P, i);
      } else {
        assert P'[..i] == P;
      }
    }
  }

  /** A node is entered once it is the root or its parent's coalescence has been handled. */
  predicate Entered(v: seq<NodeRec>, root: int, n: int, P: seq<Cursor>)
    requires 0 <= n < |v|
  {
    n == root || (0 <= v[n].parent < |v| && Cursor(v[n].parent, -1) in P)
  }

  /** The open list names valid cursors of entered nodes, one per node. */
  ghost predicate OpenWf(v: seq<NodeRec>, root: int, P: seq<Cursor>, open: seq<Cursor>)
  {
    AllValid(v, open) && DistinctKeys(open) &&
    forall x :: x in open ==> 0 <= x.node < |v| && Entered(v, root, x.node, P)
  }

  ghost predicate LoopState(v: seq<NodeRec>, root: int, P: seq<Cursor>, open: seq<Cursor>)
  {
    Handled(v, root, P) && OpenWf(v, root, P, open) && Frontier(v, root, P, open)
  }

  /** The cursor for the top stretch of node n's branch (changeIdx.put(n, n.getChangeCount() - 1)). */
  function TopOf(v: seq<NodeRec>, n: int): Cursor
    requires 0 <= n < |v|
  {
    Cursor(n, v[n].changeCount - 1)
  }

  /** The walk starts with the root alone. */
  lemma InitialState(v: seq<NodeRec>, root: int)
    requires RootedArena(v, root)
    ensures LoopState(v, root, [], [Cursor(root, -1)])
  {
    assert ValidCursor(v, Cursor(root, -1));
  }

  /** Membership in P + [c] adds c to what P starts. */
  lemma StartsAppend(v: seq<NodeRec>, root: int, x: Cursor, P: seq<Cursor>, c: Cursor)
    requires ValidCursor(v, x)
    ensures Starts(v, root, x, P + [c]) <==>
            Starts(v, root, x, P) || (x.node != root && Linked(v, x) && Above(v, x) == c)
  {
  }

  /** A cursor whose opener is not handled is not handled either. */
  lemma NotHandledBeforeAbove(v: seq<NodeRec>, root: int, P: seq<Cursor>, d: Cursor)
    requires Handled(v, root, P) && ValidCursor(v, d) && d.node != root
    requires Above(v, d) !in P
    ensures d !in P
  {
  }

  /** The picked open cursor was started and not yet handled; handling it keeps `Handled`. */
  lemma Picked(v: seq<NodeRec>, root: int, P: seq<Cursor>, open: seq<Cursor>, w: int)
    requires LoopState(v, root, P, open) && 0 <= w < |open|
    ensures ValidCursor(v, open[w]) && open[w] !in P && Starts(v, root, open[w], P)
    ensures Entered(v, root, open[w].node, P)
    ensures Handled(v, root, P + [open[w]])
  {
    var c := open[w];
    assert c in open;
    assert ValidCursor(v, c);
    var P' := P + [c];
    forall i | 0 <= i < |P'| ensures ValidCursor(v, P'[i]) && Starts(v, root, P'[i], P') {
      StartsAppend(v, root, P'[i], P, c);
    }
  }

  /** Two open cursors on the same node are the same cursor. */
  lemma SameKey(open: seq<Cursor>, x: Cursor, y: Cursor)
    requires DistinctKeys(open) && x in open && y in open && x.node == y.node
    ensures x == y
  {
    var i :| 0 <= i < |open| && open[i] == x;
    var j :| 0 <= j < |open| && open[j] == y;
    assert i == j;
  }

  /** A migration moves the node's cursor one change down. */
  lemma MigrateStep(v: seq<NodeRec>, root: int, P: seq<Cursor>, open: seq<Cursor>, w: int)
    requires RootedArena(v, root) && LoopState(v, root, P, open)
    requires 0 <= w < |open| && open[w].idx >= 0
    ensures ValidCursor(v, Cursor(open[w].node, open[w].idx - 1))
    ensures LoopState(v, root, P + [open[w]], Put(open, Cursor(open[w].node, open[w].idx - 1)))
  {
    var c := open[w];
    Picked(v, root, P, open, w);
    var n := c.node;
    var d := Cursor(n, c.idx - 1);
    var P' := P + [c];
    var open' := Put(open, d);
    assert n != root;
    assert Above(v, d) == c;
    NotHandledBeforeAbove(v, root, P, d);
    PutMembers(open, d);
    PutValid(v, open, d);
    forall x | x in open' ensures 0 <= x.node < |v| && Entered(v, root, x.node, P') {
    }
    forall x | ValidCursor(v, x) ensures x in open' <==> x !in P' && Starts(v, root, x, P') {
      StartsAppend(v, root, x, P, c);
      if x != d && x !in P' && Starts(v, root, x, P') {
        assert Above(v, x) == c ==> x == d;
        assert Starts(v, root, x, P);
        assert x in open;
        if x.node == n {
          SameKey(open, x, c);
        }
      }
    }
  }

  /** A sample closes the leaf's cursor. */
  lemma SampleStep(v: seq<NodeRec>, root: int, P: seq<Cursor>, open: seq<Cursor>, w: int)
    requires RootedArena(v, root) && LoopState(v, root, P, open)
    requires 0 <= w < |open| && open[w].idx == -1 && IsLeaf(v[open[w].node])
    ensures LoopState(v, root, P + [open[w]], RemoveKey(open, open[w].node))
  {
    var c := open[w];
    Picked(v, root, P, open, w);
    var n := c.node;
    var P' := P + [c];
    var open' := RemoveKey(open, n);
    RemoveKeyMembers(open, n);
    RemoveKeyValid(v, open, n);
    forall x | x in open' ensures 0 <= x.node < |v| && Entered(v, root, x.node, P') {
    }
    forall x | ValidCursor(v, x) ensures x in open' <==> x !in P' && Starts(v, root, x, P') {
      StartsAppend(v, root, x, P, c);
      if x !in P' && Starts(v, root, x, P') {
        assert Starts(v, root, x, P);
        assert x in open;
        if x.node == n {
          SameKey(open, x, c);
        }
      }
    }
  }

  /** The top stretches of a binary node's two children, with what they share with their parent. */
  lemma ChildrenOf(v: seq<NodeRec>, root: int, n: int)
    requires RootedArena(v, root) && 0 <= n < |v| && |v[n].children| >= 2
    ensures var l := v[n].children[0]; var r := v[n].children[1];
      0 <= l < |v| && 0 <= r < |v| && l != root && r != root &&
      v[l].parent == n && v[r].parent == n &&
      ValidCursor(v, TopOf(v, l)) && ValidCursor(v, TopOf(v, r)) &&
      Linked(v, TopOf(v, l)) && Linked(v, TopOf(v, r)) &&
      Above(v, TopOf(v, l)) == Cursor(n, -1) && Above(v, TopOf(v, r)) == Cursor(n, -1)
  {
    var l := v[n].children[0];
    var r := v[n].children[1];
    assert v[l].parent == n && v[r].parent == n;
    assert GetLeft(v[n].children) == l && GetRight(v[n].children) == r;
  }

  /** Only the two child top stretches are opened by a coalescence. */
  lemma OpenedByCoalescence(v: seq<NodeRec>, root: int, n: int, x: Cursor)
    requires RootedArena(v, root) && 0 <= n < |v| && |v[n].children| >= 2
    requires ValidCursor(v, x) && Linked(v, x) && Above(v, x) == Cursor(n, -1)
    ensures x == TopOf(v, v[n].children[0]) || x == TopOf(v, v[n].children[1])
  {
    assert ChildSlot(v, x.node);
  }

  /**
   * After a coalescence the open list holds the two child top stretches and
   * every other cursor it held, none of which is on either child.
   */
  lemma CoalesceMembers(v: seq<NodeRec>, root: int, P: seq<Cursor>, open: seq<Cursor>, w: int)
    requires RootedArena(v, root) && LoopState(v, root, P, open)
    requires 0 <= w < |open| && open[w].idx == -1 && |v[open[w].node].children| >= 2
    ensures var n := open[w].node;
      var cl := TopOf(v, v[n].children[0]); var cr := TopOf(v, v[n].children[1]);
      var open3 := Put(Put(RemoveKey(open, n), cl), cr);
      DistinctKeys(open3) && AllValid(v, open3) && cl !in P && cr !in P &&
      (forall x :: x in open ==> x.node != cl.node && x.node != cr.node) &&
      (forall x :: x in open3 <==> x == cl || x == cr || (x in open && x != open[w]))
  {
    var c := open[w];
    Picked(v, root, P, open, w);
    var n := c.node;
    ChildrenOf(v, root, n);
    var l := v[n].children[0];
    var r := v[n].children[1];
    var cl := TopOf(v, l);
    var cr := TopOf(v, r);
    var open1 := RemoveKey(open, n);
    var open2 := Put(open1, cl);
    NotHandledBeforeAbove(v, root, P, cl);
    NotHandledBeforeAbove(v, root, P, cr);
    RemoveKeyMembers(open, n);
    RemoveKeyValid(v, open, n);
    PutMembers(open1, cl);
    PutValid(v, open1, cl);
    PutMembers(open2, cr);
    PutValid(v, open2, cr);
    forall x | x in open ensures x.node != l && x.node != r {
    }
    forall x | x in open && x != c ensures x.node != n {
      if x.node == n {
        SameKey(open, x, c);
      }
    }
  }

  /** A coalescence closes the node's cursor and opens the top stretches of its two children. */
  lemma CoalesceStep(v: seq<NodeRec>, root: int, P: seq<Cursor>, open: seq<Cursor>, w: int)
    requires RootedArena(v, root) && LoopState(v, root, P, open)
    requires 0 <= w < |open| && open[w].idx == -1 && |v[open[w].node].children| >= 2
    ensures var n := open[w].node;
      LoopState(v, root, P + [open[w]],
        Put(Put(RemoveKey(open, n), TopOf(v, v[n].children[0])), TopOf(v, v[n].children[1])))
  {
    var c := open[w];
    Picked(v, root, P, open, w);
    CoalesceMembers(v, root, P, open, w);
    var n := c.node;
    ChildrenOf(v, root, n);
    var cl := TopOf(v, v[n].children[0]);
    var cr := TopOf(v, v[n].children[1]);
    var open3 := Put(Put(RemoveKey(open, n), cl), cr);
    CoalesceFrontier(v, root, P, open, c, n, cl, cr, open3);
    CoalesceEntered(v, root, P, open, c, cl, cr, open3);
  }

  lemma CoalesceEntered(v: seq<NodeRec>, root: int, P: seq<Cursor>, open: seq<Cursor>, c: Cursor,
                        cl: Cursor, cr: Cursor, open3: seq<Cursor>)
    requires forall x :: x in open ==> 0 <= x.node < |v| && Entered(v, root, x.node, P)
    requires 0 <= cl.node < |v| && 0 <= cr.node < |v| && v[cl.node].parent == c.node && v[cr.node].parent == c.node
    requires c.idx == -1 && 0 <= c.node < |v|
    requires forall x :: x in open3 <==> x == cl || x == cr || (x in open && x != c)
    ensures forall x :: x in open3 ==> 0 <= x.node < |v| && Entered(v, root, x.node, P + [c])
  {
  }

  lemma CoalesceFrontier(v: seq<NodeRec>, root: int, P: seq<Cursor>, open: seq<Cursor>, c: Cursor,
                         n: int, cl: Cursor, cr: Cursor, open3: seq<Cursor>)
    requires RootedArena(v, root) && Frontier(v, root, P, open) && DistinctKeys(open)
    requires c in open && c == Cursor(n, -1) && 0 <= n < |v| && |v[n].children| >= 2
    requires cl == TopOf(v, v[n].children[0]) && cr == TopOf(v, v[n].children[1])
    requires ValidCursor(v, cl) && ValidCursor(v, cr) && cl !in P && cr !in P && c !in P
    requires cl.node != n && cr.node != n
    requires Linked(v, cl) && Linked(v, cr) && Above(v, cl) == c && Above(v, cr) == c
    requires cl.node != root && cr.node != root
    requires forall x :: x in open3 <==> x == cl || x == cr || (x in open && x != c)
    ensures Frontier(v, root, P + [c], open3)
  {
    var P' := P + [c];
    forall x | ValidCursor(v, x) ensures x in open3 <==> x !in P' && Starts(v, root, x, P') {
      StartsAppend(v, root, x, P, c);
      if x != cl && x != cr && x !in P' && Starts(v, root, x, P') {
        if x.node != root && Linked(v, x) && Above(v, x) == c {
          OpenedByCoalescence(v, root, n, x);
        }
      }
    }
  }
}
