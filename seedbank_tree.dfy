// A seedbank tree as an arena of nodes indexed by their number, with the
// validity checks on times and types, the change count over the tree and
// the fragile copy between trees.
//
// Parent links and child lists name nodes by number; -1 stands for null.

module SeedbankTrees {
  import opened Wrappers
  import opened SeedbankNodes

  /*
   * Child-list operations of BEAST's Node, which these classes extend:
   * getLeft/getRight read slots 0 and 1 (null when missing), setLeft/setRight
   * overwrite a slot or append (padding slot 0 with null), addChild appends,
   * removeChild deletes the first occurrence.
   */

  function GetLeft(children: seq<int>): int
  {
    if |children| == 0 then -1 else children[0]
  }

  function GetRight(children: seq<int>): int
  {
    if |children| <= 1 then -1 else children[1]
  }

  function SetLeft(children: seq<int>, c: int): seq<int>
  {
    if |children| == 0 then [c] else children[0 := c]
  }

  function SetRight(children: seq<int>, c: int): seq<int>
  {
    if |children| == 0 then [-1, c]
    else if |children| == 1 then children + [c]
    else children[1 := c]
  }

  function RemoveFirst(children: seq<int>, c: int): seq<int>
    decreases |children|
  {
    if |children| == 0 then []
    else if children[0] == c then children[1..]
    else [children[0]] + RemoveFirst(children[1..], c)
  }

  /** Slot-wise behaviour of the setters: the touched slot takes the new value and the other slot keeps its value. */
  lemma SettersAgreeWithGetters(children: seq<int>, c: int)
    ensures GetLeft(SetLeft(children, c)) == c && GetRight(SetLeft(children, c)) == GetRight(children)
    ensures GetRight(SetRight(children, c)) == c && GetLeft(SetRight(children, c)) == GetLeft(children)
  {
  }

  /** Every reference in the arena names a node of the arena, and counts agree with lists. */
  predicate Shaped(v: seq<NodeRec>)
  {
    forall i :: 0 <= i < |v| ==>
      v[i].Consistent() && -1 <= v[i].parent < |v| &&
      forall k :: 0 <= k < |v[i].children| ==> 0 <= v[i].children[k] < |v|
  }

  predicate IsLeaf(n: NodeRec) { |n.children| == 0 }

  /** The branch above a child is time-ordered: child height <= changes <= parent height. */
  predicate BranchTimesOrdered(parentHeight: real, child: NodeRec)
  {
    Ascending([child.height] + child.changeTimes + [parentHeight])
  }

  predicate Ascending(s: seq<real>)
  {
    forall i :: 0 <= i < |s| - 1 ==> s[i] <= s[i + 1]
  }

  /** Adjacent order gives order between any two positions. */
  lemma {:induction false} AscendingIsSorted(s: seq<real>, i: int, j: int)
    requires Ascending(s)
    requires 0 <= i <= j < |s|
    ensures s[i] <= s[j]
    decreases j - i
  {
    if i < j {
      AscendingIsSorted(s, i + 1, j);
    }
  }

  /**
   * timesAreValid(node): every child branch is time-ordered and every child
   * subtree is valid. `fuel` bounds the recursion depth (a tree of n nodes
   * is never deeper than n).
   */
  predicate TimesValid(v: seq<NodeRec>, node: int, fuel: nat)
    requires Shaped(v) && 0 <= node < |v|
    decreases fuel
  {
    fuel == 0 ||
    forall k :: 0 <= k < |v[node].children| ==>
      BranchTimesOrdered(v[node].height, v[v[node].children[k]]) &&
      TimesValid(v, v[node].children[k], fuel - 1)
  }

  /** typesAreValid(node): every child branch ends in the node's type, recursively. */
  predicate TypesValid(v: seq<NodeRec>, node: int, fuel: nat)
    requires Shaped(v) && 0 <= node < |v|
    decreases fuel
  {
    fuel == 0 ||
    forall k :: 0 <= k < |v[node].children| ==>
      v[node].nodeType == FinalType(v[v[node].children[k]].nodeType, v[v[node].children[k]].changeTypes) &&
      TypesValid(v, v[node].children[k], fuel - 1)
  }

  predicate IsValidTree(v: seq<NodeRec>, root: int)
    requires Shaped(v) && 0 <= root < |v|
  {
    TimesValid(v, root, |v|) && TypesValid(v, root, |v|)
  }

  /**
   * The checks inside timesAreValid for one child, reading the changes from
   * the last to the first: each change is no later than the one above it
   * (starting from the parent height), and the child is no later than its
   * first change.
   */
  method BranchTimesAreValid(parentHeight: real, child: NodeRec) returns (ok: bool)
    requires child.Consistent()
    ensures ok == BranchTimesOrdered(parentHeight, child)
  {
    var s := [child.height] + child.changeTimes + [parentHeight];
    var lastHeight := parentHeight;
    var idx := child.changeCount - 1;
    while idx >= 0
      invariant -1 <= idx < child.changeCount
      invariant lastHeight == s[idx + 2]
      invariant forall i :: idx + 2 <= i < |s| - 1 ==> s[i] <= s[i + 1]
    {
      var thisHeight := child.changeTimes[idx];
      assert thisHeight == s[idx + 1];
      if thisHeight > lastHeight {
        assert !(s[idx + 1] <= s[idx + 2]);
        return false;
      }
      lastHeight := thisHeight;
      idx := idx - 1;
    }
    assert s[0] == child.height && s[1] == lastHeight;
    ok := child.height <= lastHeight;
  }

  method TimesAreValid(v: seq<NodeRec>, node: int, fuel: nat) returns (ok: bool)
    requires Shaped(v) && 0 <= node < |v|
    ensures ok == TimesValid(v, node, fuel)
    decreases fuel
  {
    if fuel == 0 {
      return true;
    }
    var children := v[node].children;
    var k := 0;
    while k < |children|
      invariant 0 <= k <= |children|
      invariant forall j :: 0 <= j < k ==>
        BranchTimesOrdered(v[node].height, v[children[j]]) && TimesValid(v, children[j], fuel - 1)
    {
      var child := children[k];
      var branchOk := BranchTimesAreValid(v[node].height, v[child]);
      if !branchOk {
        return false;
      }
      var below := TimesAreValid(v, child, fuel - 1);
      if !below {
        return false;
      }
      k := k + 1;
    }
    return true;
  }

  method TypesAreValid(v: seq<NodeRec>, node: int, fuel: nat) returns (ok: bool)
    requires Shaped(v) && 0 <= node < |v|
    ensures ok == TypesValid(v, node, fuel)
    decreases fuel
  {
    if fuel == 0 {
      return true;
    }
    var children := v[node].children;
    var k := 0;
    while k < |children|
      invariant 0 <= k <= |children|
      invariant forall j :: 0 <= j < k ==>
        v[node].nodeType == FinalType(v[children[j]].nodeType, v[children[j]].changeTypes) &&
        TypesValid(v, children[j], fuel - 1)
    {
      var child := children[k];
      if v[node].nodeType != FinalType(v[child].nodeType, v[child].changeTypes) {
        return false;
      }
      var below := TypesAreValid(v, child, fuel - 1);
      if !below {
        return false;
      }
      k := k + 1;
    }
    return true;
  }

  /** isValid = timesAreValid(root) and then typesAreValid(root). */
  method IsValid(v: seq<NodeRec>, root: int) returns (ok: bool)
    requires Shaped(v) && 0 <= root < |v|
    ensures ok == IsValidTree(v, root)
  {
    ok := TimesAreValid(v, root, |v|);
    if ok {
      ok := TypesAreValid(v, root, |v|);
    }
  }

  /** Every non-root branch of the arena is time-ordered below its parent. */
  predicate AllBranchesOrdered(v: seq<NodeRec>)
    requires Shaped(v)
  {
    forall i :: 0 <= i < |v| && v[i].parent != -1 ==> BranchTimesOrdered(v[v[i].parent].height, v[i])
  }

  /** Every non-root branch ends in its parent's type. */
  predicate AllTypesMatch(v: seq<NodeRec>)
    requires Shaped(v)
  {
    forall i :: 0 <= i < |v| && v[i].parent != -1 ==>
      FinalType(v[i].nodeType, v[i].changeTypes) == v[v[i].parent].nodeType
  }

  /** Children point back at their parent. */
  predicate ParentsConsistent(v: seq<NodeRec>)
    requires Shaped(v)
  {
    forall i, k :: 0 <= i < |v| && 0 <= k < |v[i].children| ==> v[v[i].children[k]].parent == i
  }

  /** When every branch satisfies the local conditions, the recursive checks accept from any node. */
  lemma {:induction false} LocalConditionsGiveValidity(v: seq<NodeRec>, node: int, fuel: nat)
    requires Shaped(v) && ParentsConsistent(v) && 0 <= node < |v|
    requires AllBranchesOrdered(v) && AllTypesMatch(v)
    ensures TimesValid(v, node, fuel) && TypesValid(v, node, fuel)
    decreases fuel
  {
    if fuel > 0 {
      forall k | 0 <= k < |v[node].children|
        ensures BranchTimesOrdered(v[node].height, v[v[node].children[k]])
        ensures TimesValid(v, v[node].children[k], fuel - 1)
        ensures v[node].nodeType == FinalType(v[v[node].children[k]].nodeType, v[v[node].children[k]].changeTypes)
        ensures TypesValid(v, v[node].children[k], fuel - 1)
      {
        var c := v[node].children[k];
        assert v[c].parent == node;
        LocalConditionsGiveValidity(v, c, fuel - 1);
      }
    }
  }

  /** A valid node passes its conditions on to each child: the child branch is ordered and typed, and its subtree is valid. */
  lemma ValidityDescends(v: seq<NodeRec>, node: int, fuel: nat, k: int)
    requires Shaped(v) && 0 <= node < |v| && fuel > 0
    requires TimesValid(v, node, fuel) && TypesValid(v, node, fuel)
    requires 0 <= k < |v[node].children|
    ensures BranchTimesOrdered(v[node].height, v[v[node].children[k]])
    ensures v[node].nodeType == FinalType(v[v[node].children[k]].nodeType, v[v[node].children[k]].changeTypes)
    ensures TimesValid(v, v[node].children[k], fuel - 1) && TypesValid(v, v[node].children[k], fuel - 1)
  {
  }

  /** On an ordered branch the changes are sorted and lie between the node and its parent. */
  lemma OrderedBranchBounds(parentHeight: real, child: NodeRec, i: int)
    requires BranchTimesOrdered(parentHeight, child)
    requires 0 <= i < |child.changeTimes|
    ensures child.height <= child.changeTimes[i] <= parentHeight
    ensures forall j :: i <= j < |child.changeTimes| ==> child.changeTimes[i] <= child.changeTimes[j]
  {
    var s := [child.height] + child.changeTimes + [parentHeight];
    AscendingIsSorted(s, 0, i + 1);
    AscendingIsSorted(s, i + 1, |s| - 1);
    forall j | i <= j < |child.changeTimes| ensures child.changeTimes[i] <= child.changeTimes[j] {
      AscendingIsSorted(s, i + 1, j + 1);
    }
  }

  /** Sum of the change counts of the non-root nodes. */
  function ChangesOfNonRoots(v: seq<NodeRec>): int
  {
    if |v| == 0 then 0
    else ChangesOfNonRoots(v[..|v| - 1])
         + (if v[|v| - 1].parent == -1 then 0 else v[|v| - 1].changeCount)
  }

  /** getTotalNumberOfChanges: walks the nodes, skipping the root, adding change counts. */
  method GetTotalNumberOfChanges(v: seq<NodeRec>) returns (count: int)
    ensures count == ChangesOfNonRoots(v)
  {
    count := 0;
    var i := 0;
    while i < |v|
      invariant 0 <= i <= |v|
      invariant count == ChangesOfNonRoots(v[..i])
    {
      assert v[..i + 1][..i] == v[..i];
      if v[i].parent != -1 {
        count := count + v[i].changeCount;
      }
      i := i + 1;
    }
    assert v[..i] == v;
  }

  /** Replacing one non-root node's record shifts the total change count by the change in its count. */
  lemma {:induction false} ChangesOfNonRootsUpdate(v: seq<NodeRec>, i: int, r: NodeRec)
    requires 0 <= i < |v|
    requires v[i].parent != -1 && r.parent != -1
    ensures ChangesOfNonRoots(v[i := r]) == ChangesOfNonRoots(v) - v[i].changeCount + r.changeCount
    decreases |v|
  {
    var n := |v| - 1;
    if i < n {
      assert v[i := r][..n] == v[..n][i := r];
      ChangesOfNonRootsUpdate(v[..n], i, r);
    } else {
      assert v[i := r][..n] == v[..n];
    }
  }

  /** With every change count non-negative, the total is non-negative. */
  lemma {:induction false} ChangesOfNonRootsNonNegative(v: seq<NodeRec>)
    requires forall i :: 0 <= i < |v| ==> v[i].changeCount >= 0
    ensures ChangesOfNonRoots(v) >= 0
    decreases |v|
  {
    if |v| > 0 {
      ChangesOfNonRootsNonNegative(v[..|v| - 1]);
    }
  }

  class SeedbankTree {
    var nodes: seq<SeedbankNode>
    var root: int
    var leafNodeCount: int

    /** Distinct node objects, each consistent and numbered by its position. */
    ghost predicate Wf()
      reads this, nodes
    {
      0 <= root < |nodes| &&
      (forall i, j :: 0 <= i < j < |nodes| ==> nodes[i] != nodes[j]) &&
      (forall i :: 0 <= i < |nodes| ==> nodes[i].Valid() && nodes[i].nr == i) &&
      Shaped(View())
    }

    function View(): seq<NodeRec>
      reads this`nodes, nodes
    {
      var ns := nodes;
      seq(|ns|, i reads ns requires 0 <= i < |ns| => ns[i].Record())
    }

    function NodeCount(): int
      reads this
    {
      |nodes|
    }

    /**
     * assignFromFragile: copies heights, parent links, types and change lists
     * from a tree of the same size, node by node, keeping this tree's node
     * objects; the new root gets the other root's type but no changes.
     * A missing parent link on a non-root node raises NullPointerException
     * part-way through, leaving the nodes written so far as they are.
     */
    method AssignFromFragile(other: SeedbankTree) returns (r: Outcome)
      requires Wf() && other.Wf()
      requires |other.nodes| == |nodes|
      requires forall i, j :: 0 <= i < |nodes| && 0 <= j < |other.nodes| ==> nodes[i] != other.nodes[j]
      modifies nodes, this
      ensures nodes == old(nodes)
      ensures r == Done <==> forall i :: 0 <= i < |nodes| && i != old(other.root) ==> old(other.View())[i].parent != -1
      ensures r != Done ==> r == Failed(NullPointer)
      ensures View() == FragileAssigned(old(View()), old(other.View()), old(other.root))
      ensures root == old(other.root)
      ensures r == Done ==> View() == FragileCopy(old(View()), old(other.View()), old(other.root))
    {
      var src := other.View();
      var iRoot := other.root;
      root := iRoot;
      var ok := AssignFragileNodes(iRoot, src);
      r := if ok then Done else Failed(NullPointer);
      if ok {
        FragileAssignedComplete(old(View()), src, iRoot);
      }
    }

    /** The node part of assignFromFragile: the nodes below the root index, the root, then the nodes above it. */
    method AssignFragileNodes(iRoot: int, src: seq<NodeRec>) returns (ok: bool)
      requires 0 <= iRoot < |nodes| == |src|
      requires forall i, j :: 0 <= i < j < |nodes| ==> nodes[i] != nodes[j]
      modifies nodes
      ensures ok <==> forall i :: 0 <= i < |nodes| && i != iRoot ==> src[i].parent != -1
      ensures View() == FragileAssigned(old(View()), src, iRoot)
    {
      ghost var before := View();
      ok := AssignFragileRange(0, iRoot, src);
      ghost var low := View();
      RangeIs(low, before, src, 0, iRoot);
      if !ok {
        return;
      }
      ok := AssignFragileUpper(iRoot, src);
    }

    /** The root and then the nodes above it, once the nodes below the root index are assigned. */
    method AssignFragileUpper(iRoot: int, src: seq<NodeRec>) returns (ok: bool)
      requires 0 <= iRoot < |nodes| == |src|
      requires forall i, j :: 0 <= i < j < |nodes| ==> nodes[i] != nodes[j]
      modifies nodes
      ensures ok <==> forall i :: iRoot < i < |nodes| ==> src[i].parent != -1
      ensures var low := old(View());
        View() == RangeAssigned(low[iRoot := FragileRoot(low[iRoot], src[iRoot])], src, iRoot + 1, |nodes|)
    {
      ghost var low := View();
      AssignFragileRoot(iRoot, src[iRoot]);
      ghost var mid := View();
      assert mid == low[iRoot := FragileRoot(low[iRoot], src[iRoot])];
      ok := AssignFragileRange(iRoot + 1, |nodes|, src);
      RangeIs(View(), mid, src, iRoot + 1, |nodes|);
    }

    /** The root part of assignFromFragile. */
    method AssignFragileRoot(iRoot: int, sr: NodeRec)
      requires 0 <= iRoot < |nodes|
      modifies nodes[iRoot]
      ensures nodes[iRoot].Record() == FragileRoot(old(nodes[iRoot].Record()), sr)
    {
      var rootNode := nodes[iRoot];
      rootNode.height := sr.height;
      rootNode.parent := -1;
      rootNode.nodeType := sr.nodeType;
      rootNode.changeTimes := [];
      rootNode.changeTypes := [];
      rootNode.nTypeChanges := 0;
      rootNode.children := SetRight(SetLeft(rootNode.children, GetLeft(sr.children)), GetRight(sr.children));
    }

    /**
     * assignFromFragileHelper over nodes [lo, hi): false when a source node
     * has no parent. The loop stops at the first such node, after writing
     * its height (setHeight runs before getParent() throws).
     */
    method AssignFragileRange(lo: int, hi: int, src: seq<NodeRec>) returns (ok: bool)
      requires 0 <= lo <= hi <= |nodes| == |src|
      requires forall i, j :: 0 <= i < j < |nodes| ==> nodes[i] != nodes[j]
      modifies nodes
      ensures ok <==> forall i :: lo <= i < hi ==> src[i].parent != -1
      ensures ok ==> forall i :: 0 <= i < |nodes| ==>
        nodes[i].Record() == (if lo <= i < hi then FragileNode(old(nodes[i].Record()), src[i]) else old(nodes[i].Record()))
      ensures forall i :: 0 <= i < |nodes| ==>
        nodes[i].Record() == FragileStep(old(nodes[i].Record()), src[i], i, lo, FirstOrphan(src, lo, hi), hi)
    {
      var i := lo;
      while i < hi
        invariant lo <= i <= hi
        invariant forall j :: lo <= j < i ==> src[j].parent != -1
        invariant forall j :: 0 <= j < |nodes| ==>
          nodes[j].Record() == (if lo <= j < i then FragileNode(old(nodes[j].Record()), src[j]) else old(nodes[j].Record()))
      {
        var sink := nodes[i];
        var s := src[i];
        sink.height := s.height;
        if s.parent == -1 {
          assert FirstOrphan(src, lo, hi) == i;
          return false;
        }
        AssignFragileNode(sink, s);
        i := i + 1;
      }
      ok := true;
    }

    /** One step of assignFromFragileHelper on a node whose source has a parent. */
    static method AssignFragileNode(sink: SeedbankNode, s: NodeRec)
      modifies sink
      ensures sink.Record() == FragileNode(old(sink.Record()), s)
    {
      sink.height := s.height;
      sink.parent := s.parent;
      sink.nTypeChanges := s.changeCount;
      sink.changeTimes := s.changeTimes;
      sink.changeTypes := s.changeTypes;
      sink.nodeType := s.nodeType;
      if GetLeft(s.children) != -1 {
        sink.children := SetRight(SetLeft(sink.children, GetLeft(s.children)), GetRight(s.children));
      }
    }
  }

  /** The first index in [lo, hi) whose source node has no parent, or hi when there is none. */
  function FirstOrphan(src: seq<NodeRec>, lo: int, hi: int): (k: int)
    requires 0 <= lo <= hi <= |src|
    ensures lo <= k <= hi
    ensures forall j :: lo <= j < k ==> src[j].parent != -1
    ensures k < hi ==> src[k].parent == -1
    decreases hi - lo
  {
    if lo == hi then hi else if src[lo].parent == -1 then lo else FirstOrphan(src, lo + 1, hi)
  }

  /**
   * Node i after assignFromFragileHelper over [lo, hi) stopped at `stop`:
   * the nodes before it are copied, a parentless node that stops the loop
   * has only its height written, and the rest are kept.
   */
  function FragileStep(sink: NodeRec, s: NodeRec, i: int, lo: int, stop: int, hi: int): NodeRec
  {
    if lo <= i < stop then FragileNode(sink, s)
    else if i == stop && stop < hi then sink.(height := s.height)
    else sink
  }

  /** One non-root node after assignFromFragileHelper; child slots are copied only when the source has a left child. */
  function FragileNode(sink: NodeRec, s: NodeRec): NodeRec
  {
    sink.(height := s.height, parent := s.parent, changeCount := s.changeCount,
          changeTimes := s.changeTimes, changeTypes := s.changeTypes, nodeType := s.nodeType,
          children := if GetLeft(s.children) != -1
                      then SetRight(SetLeft(sink.children, GetLeft(s.children)), GetRight(s.children))
                      else sink.children)
  }

  /** The root after assignFromFragile: the source's height and type, no parent, no changes. */
  function FragileRoot(sink: NodeRec, s: NodeRec): NodeRec
  {
    sink.(height := s.height, parent := -1, nodeType := s.nodeType,
          changeCount := 0, changeTimes := [], changeTypes := [],
          children := SetRight(SetLeft(sink.children, GetLeft(s.children)), GetRight(s.children)))
  }

  /** The whole arena after assignFromFragile from `src` with root iRoot. */
  function FragileCopy(v: seq<NodeRec>, src: seq<NodeRec>, iRoot: int): (r: seq<NodeRec>)
    requires |v| == |src|
  {
    seq(|v|, i requires 0 <= i < |v| =>
      if i == iRoot then FragileRoot(v[i], src[i]) else FragileNode(v[i], src[i]))
  }

  /**
   * The arena after assignFromFragileHelper over [lo, hi): the nodes before
   * the first parentless one are copied, that node has only its height
   * written, and every other node is kept.
   */
  function RangeAssigned(v: seq<NodeRec>, src: seq<NodeRec>, lo: int, hi: int): (r: seq<NodeRec>)
    requires |v| == |src| && 0 <= lo <= hi <= |v|
    ensures |r| == |v|
  {
    seq(|v|, i requires 0 <= i < |v| => FragileStep(v[i], src[i], i, lo, FirstOrphan(src, lo, hi), hi))
  }

  /** An arena that agrees node by node with the range step is the range step. */
  lemma RangeIs(w: seq<NodeRec>, v: seq<NodeRec>, src: seq<NodeRec>, lo: int, hi: int)
    requires |w| == |v| == |src| && 0 <= lo <= hi <= |v|
    requires forall i :: 0 <= i < |w| ==> w[i] == FragileStep(v[i], src[i], i, lo, FirstOrphan(src, lo, hi), hi)
    ensures w == RangeAssigned(v, src, lo, hi)
  {
  }

  /**
   * The whole arena after assignFromFragile from `src` with root iRoot, also
   * when a parentless non-root node stops it: the nodes below the root
   * index are assigned first, then the root, then the nodes above it.
   */
  function FragileAssigned(v: seq<NodeRec>, src: seq<NodeRec>, iRoot: int): (r: seq<NodeRec>)
    requires |v| == |src| && 0 <= iRoot < |v|
    ensures |r| == |v|
  {
    var low := RangeAssigned(v, src, 0, iRoot);
    if FirstOrphan(src, 0, iRoot) < iRoot then low
    else RangeAssigned(low[iRoot := FragileRoot(low[iRoot], src[iRoot])], src, iRoot + 1, |v|)
  }

  /** When no non-root source node lacks a parent, the copy runs to the end and is the full fragile copy. */
  lemma FragileAssignedComplete(v: seq<NodeRec>, src: seq<NodeRec>, iRoot: int)
    requires |v| == |src| && 0 <= iRoot < |v|
    requires forall i :: 0 <= i < |v| && i != iRoot ==> src[i].parent != -1
    ensures FragileAssigned(v, src, iRoot) == FragileCopy(v, src, iRoot)
  {
    assert FirstOrphan(src, 0, iRoot) == iRoot;
    assert FirstOrphan(src, iRoot + 1, |v|) == |v|;
  }

  /**
   * When a non-root source node lacks a parent, the copy stops at the first
   * such node k (the nodes are visited in index order, the root in its
   * place): every non-root node before k holds the source's record, k has
   * only the source's height, the root is assigned when it comes before k,
   * and every node after k keeps its old record.
   */
  lemma FragileAssignedStops(v: seq<NodeRec>, src: seq<NodeRec>, iRoot: int, k: int)
    requires |v| == |src| && 0 <= iRoot < |v|
    requires 0 <= k < |v| && k != iRoot && src[k].parent == -1
    requires forall j :: 0 <= j < k && j != iRoot ==> src[j].parent != -1
    ensures FragileAssigned(v, src, iRoot)[k] == v[k].(height := src[k].height)
    ensures forall j :: 0 <= j < k && j != iRoot ==> FragileAssigned(v, src, iRoot)[j] == FragileNode(v[j], src[j])
    ensures FragileAssigned(v, src, iRoot)[iRoot] == if iRoot < k then FragileRoot(v[iRoot], src[iRoot]) else v[iRoot]
    ensures forall j :: k < j < |v| && j != iRoot ==> FragileAssigned(v, src, iRoot)[j] == v[j]
  {
    if k < iRoot {
      assert FirstOrphan(src, 0, iRoot) == k;
    } else {
      assert FirstOrphan(src, 0, iRoot) == iRoot;
      assert FirstOrphan(src, iRoot + 1, |v|) == k;
    }
  }

  /**
   * After a fragile copy the root carries no changes, and every other node
   * has exactly the source's heights, types, changes and parent.
   */
  lemma FragileCopyRootHasNoChanges(v: seq<NodeRec>, src: seq<NodeRec>, iRoot: int)
    requires |v| == |src| && 0 <= iRoot < |v|
    ensures FragileCopy(v, src, iRoot)[iRoot].changeCount == 0
    ensures FragileCopy(v, src, iRoot)[iRoot].changeTypes == [] && FragileCopy(v, src, iRoot)[iRoot].changeTimes == []
    ensures FragileCopy(v, src, iRoot)[iRoot].parent == -1
    ensures forall i :: 0 <= i < |v| && i != iRoot ==>
      var r := FragileCopy(v, src, iRoot)[i];
      r.height == src[i].height && r.parent == src[i].parent && r.nodeType == src[i].nodeType &&
      r.changeTypes == src[i].changeTypes && r.changeTimes == src[i].changeTimes
  {
  }

  /* ---------------------------------------------------------------------
   * copy() and assignFrom(nodes, node) through a subtree. Both follow the
   * left child and, when there is a left child, the right child; `fuel`
   * bounds the recursion depth.
   */

  /** The first two children, the ones copy() and assignFrom follow. */
  function Followed(n: NodeRec): seq<int>
  {
    n.children[..Min(2, |n.children|)]
  }

  /** The nodes copy() and assignFrom reach from x within `fuel` levels. */
  function Reach(v: seq<NodeRec>, x: int, fuel: nat): (r: set<int>)
    requires Shaped(v) && 0 <= x < |v|
    ensures x in r && forall k :: k in r ==> 0 <= k < |v|
    decreases fuel
  {
    if fuel == 0 then {x}
    else
      {x} + (if |v[x].children| >= 1 then Reach(v, v[x].children[0], fuel - 1) else {})
          + (if |v[x].children| >= 2 then Reach(v, v[x].children[1], fuel - 1) else {})
  }

  /** The record copy() gives a node: its own fields, the given parent and the followed children. */
  function CopiedNode(n: NodeRec, above: int): NodeRec
  {
    n.(parent := above, children := Followed(n))
  }

  /** Every entry of r is the copy of the node with its number, hung below some parent. */
  predicate AllCopies(v: seq<NodeRec>, r: map<int, NodeRec>)
  {
    forall k :: k in r ==> 0 <= k < |v| && r[k] == CopiedNode(v[k], r[k].parent)
  }

  /** Every entry but x hangs below another entry, or below x when `orTo` holds. */
  predicate HungBelow(r: map<int, NodeRec>, x: int, orTo: bool)
  {
    forall k :: k in r && (orTo || k != x) ==> r[k].parent in r || (orTo && r[k].parent == x)
  }

  /**
   * copy() on the subtree below x, as the records of the new nodes keyed by
   * node number (each copy keeps its original's number): the top copy
   * hangs below `above` (-1 for none), every other copy hangs below
   * another copy, and there is one copy for every node reached.
   */
  function SubtreeCopy(v: seq<NodeRec>, x: int, above: int, fuel: nat): (r: map<int, NodeRec>)
    requires Shaped(v) && 0 <= x < |v|
    ensures x in r && r[x] == CopiedNode(v[x], above)
    ensures AllCopies(v, r) && HungBelow(r, x, false)
    ensures r.Keys == Reach(v, x, fuel)
    decreases fuel
  {
    var top := map[x := CopiedNode(v[x], above)];
    if fuel == 0 then top
    else
      var left := if |v[x].children| >= 1 then SubtreeCopy(v, v[x].children[0], x, fuel - 1) else map[];
      var right := if |v[x].children| >= 2 then SubtreeCopy(v, v[x].children[1], x, fuel - 1) else map[];
      CopyJoined(v, x, above, fuel, left, right);
      JoinedKeys(v, x, fuel, left, right, top);
      Joined(left, right, top)
  }

  /** The joined copy has one entry for each node reached from x. */
  lemma JoinedKeys(v: seq<NodeRec>, x: int, fuel: nat, left: map<int, NodeRec>, right: map<int, NodeRec>, top: map<int, NodeRec>)
    requires Shaped(v) && 0 <= x < |v| && fuel > 0 && top.Keys == {x}
    requires left.Keys == if |v[x].children| >= 1 then Reach(v, v[x].children[0], fuel - 1) else {}
    requires right.Keys == if |v[x].children| >= 2 then Reach(v, v[x].children[1], fuel - 1) else {}
    ensures Joined(left, right, top).Keys == Reach(v, x, fuel)
  {
  }

  /** The copies of the child subtrees of x, joined below the copy of x, form the copy of x's subtree. */
  lemma CopyJoined(v: seq<NodeRec>, x: int, above: int, fuel: nat, left: map<int, NodeRec>, right: map<int, NodeRec>)
    requires Shaped(v) && 0 <= x < |v| && fuel > 0
    requires |v[x].children| < 1 ==> left == map[]
    requires |v[x].children| >= 1 ==> var c := v[x].children[0];
      c in left && left[c].parent == x && AllCopies(v, left) && HungBelow(left, c, false) && left.Keys == Reach(v, c, fuel - 1)
    requires |v[x].children| < 2 ==> right == map[]
    requires |v[x].children| >= 2 ==> var c := v[x].children[1];
      c in right && right[c].parent == x && AllCopies(v, right) && HungBelow(right, c, false) && right.Keys == Reach(v, c, fuel - 1)
    ensures var r := Joined(left, right, map[x := CopiedNode(v[x], above)]);
      x in r && r[x] == CopiedNode(v[x], above) && AllCopies(v, r) && HungBelow(r, x, false)
  {
    HungChild(v, x, if |v[x].children| >= 1 then v[x].children[0] else x, left);
    HungChild(v, x, if |v[x].children| >= 2 then v[x].children[1] else x, right);
    JoinedCopies(v, x, left, right, map[x := CopiedNode(v[x], above)]);
  }

  /** A copy rooted at a child c of x, hung below x, hangs below copies or below x. */
  lemma HungChild(v: seq<NodeRec>, x: int, c: int, m: map<int, NodeRec>)
    requires m == map[] || (c in m && m[c].parent == x && AllCopies(v, m) && HungBelow(m, c, false))
    ensures AllCopies(v, m) && HungBelow(m, x, true)
  {
  }

  /** Copies of the two child subtrees hung below the copy of x form one copy rooted at x. */
  lemma JoinedCopies(v: seq<NodeRec>, x: int, left: map<int, NodeRec>, right: map<int, NodeRec>, top: map<int, NodeRec>)
    requires top.Keys == {x} && AllCopies(v, top)
    requires AllCopies(v, left) && AllCopies(v, right)
    requires HungBelow(left, x, true) && HungBelow(right, x, true)
    ensures AllCopies(v, Joined(left, right, top)) && HungBelow(Joined(left, right, top), x, false)
  {
  }

  /** Three maps joined, later ones winning. */
  function Joined(a: map<int, NodeRec>, b: map<int, NodeRec>, c: map<int, NodeRec>): (r: map<int, NodeRec>)
    ensures r.Keys == a.Keys + b.Keys + c.Keys
    ensures forall k :: k in r ==> r[k] == if k in c then c[k] else if k in b then b[k] else a[k]
  {
    a + b + c
  }

  /** A child list set slot by slot with setLeft and then setRight is the overlay of the source's first two slots. */
  lemma OverlaidIsSetters(cur: seq<int>, src: seq<int>)
    requires |src| >= 1
    ensures |src| == 1 ==> Overlaid(cur, src) == SetLeft(cur, src[0])
    ensures |src| >= 2 ==> Overlaid(cur, src) == SetRight(SetLeft(cur, src[0]), src[1])
  {
  }

  /** Node x after its own part of assignFrom: the source's fields, no parent, the left slot set when there is a left child. */
  function AssignedTop(w: NodeRec, s: NodeRec): NodeRec
  {
    s.(parent := -1, children := if |s.children| >= 1 then SetLeft(w.children, s.children[0]) else w.children)
  }

  /**
   * assignFrom(nodes, src[x]) with this = nodes[x] on the arena w: node x
   * takes the source's fields, and when the source has a left child, the
   * left slot names it, the child is assigned in turn and hung below x;
   * then the same for the right child. A source leaf leaves x's child
   * list alone. At fuel 0 the child slots are overlaid and nothing below
   * is assigned.
   */
  function AssignedFrom(w: seq<NodeRec>, src: seq<NodeRec>, x: int, fuel: nat): (r: seq<NodeRec>)
    requires Shaped(w) && Shaped(src) && |w| == |src| && 0 <= x < |w|
    ensures |r| == |w| && Shaped(r)
    ensures forall k :: 0 <= k < |w| && k !in Reach(src, x, fuel) ==> r[k] == w[k]
    ensures forall k :: 0 <= k < |w| && |w[k].children| > 0 ==> |r[k].children| > 0
    decreases fuel, 2
  {
    var s := src[x];
    if fuel == 0 then PutRec(w, x, s.(parent := -1, children := Overlaid(w[x].children, s.children)))
    else AssignedBelow(PutRec(w, x, AssignedTop(w[x], s)), src, x, fuel)
  }

  /** The children of x after its own part: the left one assigned and hung below x, then the right one. */
  function AssignedBelow(w: seq<NodeRec>, src: seq<NodeRec>, x: int, fuel: nat): (r: seq<NodeRec>)
    requires Shaped(w) && Shaped(src) && |w| == |src| && 0 <= x < |w| && fuel > 0
    requires |src[x].children| > 0 ==> |w[x].children| > 0
    ensures |r| == |w| && Shaped(r)
    ensures forall k :: 0 <= k < |w| && k !in Reach(src, x, fuel) ==> r[k] == w[k]
    ensures forall k :: 0 <= k < |w| && |w[k].children| > 0 ==> |r[k].children| > 0
    decreases fuel, 1
  {
    var cs := src[x].children;
    if |cs| == 0 then w
    else
      var w2 := AssignedFrom(w, src, cs[0], fuel - 1);
      var w3 := PutRec(w2, cs[0], w2[cs[0]].(parent := x));
      if |cs| == 1 then w3
      else AssignedRight(w3, src, x, fuel)
  }

  /** setRight, then the right child assigned and hung below x. */
  function AssignedRight(w: seq<NodeRec>, src: seq<NodeRec>, x: int, fuel: nat): (r: seq<NodeRec>)
    requires Shaped(w) && Shaped(src) && |w| == |src| && 0 <= x < |w| && fuel > 0
    requires |src[x].children| >= 2 && |w[x].children| > 0
    ensures |r| == |w| && Shaped(r)
    ensures forall k :: 0 <= k < |w| && k !in Reach(src, x, fuel) ==> r[k] == w[k]
    ensures forall k :: 0 <= k < |w| && |w[k].children| > 0 ==> |r[k].children| > 0
    decreases fuel, 0
  {
    var rt := src[x].children[1];
    var w4 := PutRec(w, x, w[x].(children := SetRight(w[x].children, rt)));
    var w5 := AssignedFrom(w4, src, rt, fuel - 1);
    PutRec(w5, rt, w5[rt].(parent := x))
  }

  /** Node k of a shaped arena replaced by a record whose links stay inside the arena. */
  function PutRec(w: seq<NodeRec>, k: int, n: NodeRec): (r: seq<NodeRec>)
    requires Shaped(w) && 0 <= k < |w| && n.Consistent() && -1 <= n.parent < |w|
    requires forall c :: 0 <= c < |n.children| ==> 0 <= n.children[c] < |w|
    ensures |r| == |w| && Shaped(r) && r[k] == n
    ensures forall i :: 0 <= i < |w| && i != k ==> r[i] == w[i]
  {
    w[k := n]
  }

  /** Assigning from a source leaf takes its fields and keeps the node's own children. */
  lemma AssignedFromLeaf(w: seq<NodeRec>, src: seq<NodeRec>, x: int, fuel: nat)
    requires Shaped(w) && Shaped(src) && |w| == |src| && 0 <= x < |w|
    requires |src[x].children| == 0
    ensures AssignedFrom(w, src, x, fuel) == w[x := src[x].(parent := -1, children := w[x].children)]
  {
  }

  /**
   * When x is not met again below its children, assignFrom leaves x with
   * the source's fields, no parent and the source's first two children
   * overlaid on its own list, and hangs the right child (and the left
   * one, when it is not met below the right one) below x.
   */
  lemma AssignedFromTop(w: seq<NodeRec>, src: seq<NodeRec>, x: int, fuel: nat)
    requires Shaped(w) && Shaped(src) && |w| == |src| && 0 <= x < |w| && fuel > 0
    requires forall j :: 0 <= j < |Followed(src[x])| ==> x !in Reach(src, src[x].children[j], fuel - 1)
    ensures AssignedFrom(w, src, x, fuel)[x] == src[x].(parent := -1, children := Overlaid(w[x].children, src[x].children))
    ensures |src[x].children| >= 2 ==> AssignedFrom(w, src, x, fuel)[src[x].children[1]].parent == x
    ensures |src[x].children| >= 1 && (|src[x].children| >= 2 ==> src[x].children[0] !in Reach(src, src[x].children[1], fuel - 1)) ==>
            AssignedFrom(w, src, x, fuel)[src[x].children[0]].parent == x
  {
    var s := src[x];
    var w1 := PutRec(w, x, AssignedTop(w[x], s));
    assert AssignedFrom(w, src, x, fuel) == AssignedBelow(w1, src, x, fuel);
    if |s.children| >= 1 {
      OverlaidIsSetters(w[x].children, s.children);
      var l := s.children[0];
      assert x !in Reach(src, l, fuel - 1);
      var w2 := AssignedFrom(w1, src, l, fuel - 1);
      assert w2[x] == w1[x];
      var w3 := PutRec(w2, l, w2[l].(parent := x));
      assert w3[x] == w1[x] && w3[l].parent == x;
      if |s.children| >= 2 {
        var rt := s.children[1];
        assert x !in Reach(src, rt, fuel - 1);
        var w4 := PutRec(w3, x, w3[x].(children := SetRight(w3[x].children, rt)));
        var w5 := AssignedFrom(w4, src, rt, fuel - 1);
        assert w5[x] == w4[x];
        assert AssignedBelow(w1, src, x, fuel) == PutRec(w5, rt, w5[rt].(parent := x));
        if l !in Reach(src, rt, fuel - 1) {
          assert w5[l] == w4[l];
        }
      } else {
        assert AssignedBelow(w1, src, x, fuel) == w3;
      }
    }
  }
}
