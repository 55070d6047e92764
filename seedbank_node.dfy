// A node of a seedbank tree together with the list of type changes on the
// branch above it (types 0 = dormant, 1 = active, read backwards in time).

module SeedbankNodes {
  import opened Wrappers

  /** Everything a node holds, as a value. `parent` is -1 for the root. */
  datatype NodeRec = NodeRec(
    nr: int,
    height: real,
    parent: int,
    children: seq<int>,
    nodeType: int,
    changeCount: int,
    changeTypes: seq<int>,
    changeTimes: seq<real>)
  {
    /** The change count agrees with both change lists. */
    predicate Consistent()
    {
      changeCount == |changeTypes| == |changeTimes|
    }

    predicate IsRoot() { parent == -1 }
  }

  /** Type at the top of a branch: the last change's type, or the node's own type. */
  function FinalType(nodeType: int, types: seq<int>): int
  {
    if |types| > 0 then types[|types| - 1] else nodeType
  }

  /** Time of the last change, or `start` (the node height) when there is none. */
  function PrevTime(start: real, times: seq<real>): real
  {
    if |times| > 0 then times[|times| - 1] else start
  }

  /** Reading a branch in two pieces: the top type of a + b is the top type of b started from a's. */
  lemma FinalTypeConcat(nodeType: int, a: seq<int>, b: seq<int>)
    ensures FinalType(nodeType, a + b) == FinalType(FinalType(nodeType, a), b)
  {
  }

  /**
   * Sum of the segments of a branch that getTotalLength credits to type `ty`:
   * the segment that ends at change i counts when that change is to a type
   * other than `ty`. Segments start at `start` (the node height).
   */
  function CreditedLength(ty: int, start: real, types: seq<int>, times: seq<real>): real
    requires |types| == |times|
    decreases |types|
  {
    if |types| == 0 then 0.0
    else
      var n := |types| - 1;
      CreditedLength(ty, start, types[..n], times[..n])
        + (if types[n] != ty then times[n] - PrevTime(start, times[..n]) else 0.0)
  }

  /** Length of type `ty` on a non-root branch, as getTotalLength defines it. */
  function TypeLength(ty: int, height: real, nodeType: int, types: seq<int>, times: seq<real>,
                      parentHeight: real): real
    requires |types| == |times|
  {
    CreditedLength(ty, height, types, times)
      + (if FinalType(nodeType, types) == ty then parentHeight - PrevTime(height, times) else 0.0)
  }

  predicate AllBinary(types: seq<int>)
  {
    forall i :: 0 <= i < |types| ==> types[i] == 0 || types[i] == 1
  }

  /** With binary change types, each segment before the last change is credited to exactly one type. */
  lemma {:induction false} CreditedPartition(start: real, types: seq<int>, times: seq<real>)
    requires |types| == |times|
    requires AllBinary(types)
    ensures CreditedLength(0, start, types, times) + CreditedLength(1, start, types, times)
            == PrevTime(start, times) - start
    decreases |types|
  {
    if |types| > 0 {
      var n := |types| - 1;
      CreditedPartition(start, types[..n], times[..n]);
    }
  }

  /** The dormant and the active length of a non-root branch add up to the branch length. */
  lemma TypeLengthPartition(height: real, nodeType: int, types: seq<int>, times: seq<real>,
                            parentHeight: real)
    requires |types| == |times|
    requires AllBinary(types)
    requires nodeType == 0 || nodeType == 1
    ensures TypeLength(0, height, nodeType, types, times, parentHeight)
            + TypeLength(1, height, nodeType, types, times, parentHeight)
            == parentHeight - height
  {
    CreditedPartition(height, types, times);
  }

  /**
   * Length spent in type `ty` when a branch starts in type `cur` at time `prev`
   * and the type flips at every change time, whatever the recorded change type;
   * the last segment runs to `top`.
   */
  function FlipLength(ty: int, cur: int, prev: real, times: seq<real>, top: real): real
    decreases |times|
  {
    if |times| == 0 then (if cur == ty then top - prev else 0.0)
    else (if cur == ty then times[0] - prev else 0.0) + FlipLength(ty, 1 - cur, times[0], times[1..], top)
  }

  /** The flip-per-change reading also partitions the branch between the two types. */
  lemma {:induction false} FlipPartition(cur: int, prev: real, times: seq<real>, top: real)
    requires cur == 0 || cur == 1
    ensures FlipLength(0, cur, prev, times, top) + FlipLength(1, cur, prev, times, top) == top - prev
    decreases |times|
  {
    if |times| > 0 {
      FlipPartition(1 - cur, times[0], times[1..], top);
    }
  }

  /** Along a time-ordered branch neither reading can be negative. */
  lemma {:induction false} FlipLengthNonNegative(ty: int, cur: int, prev: real, times: seq<real>, top: real)
    requires forall i, j :: 0 <= i < j < |times| ==> times[i] <= times[j]
    requires |times| > 0 ==> prev <= times[0] && times[|times| - 1] <= top
    requires |times| == 0 ==> prev <= top
    ensures FlipLength(ty, cur, prev, times, top) >= 0.0
    decreases |times|
  {
    if |times| > 0 {
      FlipLengthNonNegative(ty, 1 - cur, times[0], times[1..], top);
    }
  }

  class SeedbankNode {
    var nr: int
    var height: real
    var parent: int
    var children: seq<int>
    var nodeType: int
    var nTypeChanges: int
    var changeTypes: seq<int>
    var changeTimes: seq<real>

    function Record(): NodeRec
      reads this
    {
      NodeRec(nr, height, parent, children, nodeType, nTypeChanges, changeTypes, changeTimes)
    }

    ghost predicate Valid()
      reads this
    {
      Record().Consistent()
    }

    /** A fresh node: no parent, no children, type 0 and no changes. */
    constructor (nr: int, height: real)
      ensures Valid()
      ensures Record() == NodeRec(nr, height, -1, [], 0, 0, [], [])
    {
      this.nr := nr;
      this.height := height;
      parent := -1;
      children := [];
      nodeType := 0;
      nTypeChanges := 0;
      changeTypes := [];
      changeTimes := [];
    }

    function GetFinalType(): int
      reads this
    {
      FinalType(nodeType, changeTypes)
    }

    function GetFinalChangeTime(): real
      reads this
    {
      PrevTime(height, changeTimes)
    }

    /** Only 0 and 1 are accepted; anything else is refused and nothing changes. */
    method SetNodeType(t: int) returns (r: Outcome)
      modifies this
      ensures t != 0 && t != 1 ==> r == Failed(IllegalArgument) && Record() == old(Record())
      ensures t == 0 || t == 1 ==> r == Done && Record() == old(Record()).(nodeType := t)
    {
      if t != 0 && t != 1 {
        return Failed(IllegalArgument);
      }
      nodeType := t;
      r := Done;
    }

    /** Appends one change; neither its type nor its time is checked. */
    method AddChange(newType: int, time: real)
      modifies this
      ensures Record() == old(Record()).(changeTypes := old(changeTypes) + [newType],
                                         changeTimes := old(changeTimes) + [time],
                                         changeCount := old(nTypeChanges) + 1)
    {
      changeTypes := changeTypes + [newType];
      changeTimes := changeTimes + [time];
      nTypeChanges := nTypeChanges + 1;
    }

    method ClearChanges()
      modifies this
      ensures Record() == old(Record()).(changeTypes := [], changeTimes := [], changeCount := 0)
    {
      changeTypes := [];
      changeTimes := [];
      nTypeChanges := 0;
    }

    /** Re-times change idx; an index outside the list raises and changes nothing. */
    method SetChangeTime(idx: int, newTime: real) returns (r: Outcome)
      requires Valid()
      modifies this
      ensures !(0 <= idx < nTypeChanges) ==> r == Failed(IndexOutOfBounds) && Record() == old(Record())
      ensures 0 <= idx < old(nTypeChanges) ==>
        r == Done && Record() == old(Record()).(changeTimes := old(changeTimes)[idx := newTime])
    {
      if !(0 <= idx < |changeTimes|) {
        return Failed(IndexOutOfBounds);
      }
      changeTimes := changeTimes[idx := newTime];
      r := Done;
    }

    /** Re-types change idx; an index outside the list raises and changes nothing. */
    method SetChangeType(idx: int, newType: int) returns (r: Outcome)
      requires Valid()
      modifies this
      ensures !(0 <= idx < nTypeChanges) ==> r == Failed(IndexOutOfBounds) && Record() == old(Record())
      ensures 0 <= idx < old(nTypeChanges) ==>
        r == Done && Record() == old(Record()).(changeTypes := old(changeTypes)[idx := newType])
    {
      if !(0 <= idx < |changeTypes|) {
        return Failed(IndexOutOfBounds);
      }
      changeTypes := changeTypes[idx := newType];
      r := Done;
    }

    /**
     * Drops changes from the end while more than k remain. A negative k
     * empties the lists and then fails on the removal at index -1.
     */
    method TruncateChanges(k: int) returns (r: Outcome)
      requires Valid()
      modifies this
      ensures Valid()
      ensures k >= 0 ==> r == Done && Record() == old(Record()).(
        changeTypes := old(changeTypes)[..Min(k, old(nTypeChanges))],
        changeTimes := old(changeTimes)[..Min(k, old(nTypeChanges))],
        changeCount := Min(k, old(nTypeChanges)))
      ensures k < 0 ==> r == Failed(IndexOutOfBounds) && Record() == old(Record()).(
        changeTypes := [], changeTimes := [], changeCount := 0)
    {
      while nTypeChanges > k
        invariant Valid()
        invariant k >= 0 ==> Min(k, old(nTypeChanges)) <= nTypeChanges <= old(nTypeChanges)
        invariant 0 <= nTypeChanges <= old(nTypeChanges)
        invariant changeTypes == old(changeTypes)[..nTypeChanges]
        invariant changeTimes == old(changeTimes)[..nTypeChanges]
        invariant Record() == old(Record()).(changeTypes := changeTypes, changeTimes := changeTimes,
                                             changeCount := nTypeChanges)
        decreases nTypeChanges
      {
        if nTypeChanges == 0 {
          return Failed(IndexOutOfBounds);
        }
        changeTypes := changeTypes[..nTypeChanges - 1];
        changeTimes := changeTimes[..nTypeChanges - 1];
        nTypeChanges := nTypeChanges - 1;
      }
      r := Done;
    }

    /** Inserts a change at idx; idx beyond the end is refused, a negative idx raises. */
    method InsertChange(idx: int, newType: int, newTime: real) returns (r: Outcome)
      requires Valid()
      modifies this
      ensures Valid()
      ensures idx > old(nTypeChanges) ==> r == Failed(IllegalArgument) && Record() == old(Record())
      ensures idx < 0 ==> r == Failed(IndexOutOfBounds) && Record() == old(Record())
      ensures 0 <= idx <= old(nTypeChanges) ==> r == Done && Record() == old(Record()).(
        changeTypes := InsertAt(old(changeTypes), idx, newType),
        changeTimes := InsertAt(old(changeTimes), idx, newTime),
        changeCount := old(nTypeChanges) + 1)
    {
      if idx > nTypeChanges {
        return Failed(IllegalArgument);
      }
      if idx < 0 {
        return Failed(IndexOutOfBounds);
      }
      changeTimes := InsertAt(changeTimes, idx, newTime);
      changeTypes := InsertAt(changeTypes, idx, newType);
      nTypeChanges := nTypeChanges + 1;
      r := Done;
    }

    /** Removes change idx; idx at or past the end is refused, a negative idx raises. */
    method RemoveChange(idx: int) returns (r: Outcome)
      requires Valid()
      modifies this
      ensures Valid()
      ensures idx >= old(nTypeChanges) ==> r == Failed(IllegalArgument) && Record() == old(Record())
      ensures idx < 0 ==> r == Failed(IndexOutOfBounds) && Record() == old(Record())
      ensures 0 <= idx < old(nTypeChanges) ==> r == Done && Record() == old(Record()).(
        changeTypes := RemoveAt(old(changeTypes), idx),
        changeTimes := RemoveAt(old(changeTimes), idx),
        changeCount := old(nTypeChanges) - 1)
    {
      if idx >= nTypeChanges {
        return Failed(IllegalArgument);
      }
      if idx < 0 {
        return Failed(IndexOutOfBounds);
      }
      changeTimes := RemoveAt(changeTimes, idx);
      changeTypes := RemoveAt(changeTypes, idx);
      nTypeChanges := nTypeChanges - 1;
      r := Done;
    }

    /**
     * getTotalLength(type): 0 for the root; otherwise the credited segments
     * plus the last segment up to `parentHeight` (the parent's height,
     * which the node reaches through its parent link in the source).
     */
    method GetTotalLength(ty: int, parentHeight: real) returns (total: real)
      requires Valid()
      ensures parent == -1 ==> total == 0.0
      ensures parent != -1 ==>
        total == TypeLength(ty, height, nodeType, changeTypes, changeTimes, parentHeight)
    {
      if parent == -1 {
        return 0.0;
      }
      total := 0.0;
      var prev := height;
      var i := 0;
      while i < nTypeChanges
        invariant 0 <= i <= nTypeChanges
        invariant total == CreditedLength(ty, height, changeTypes[..i], changeTimes[..i])
        invariant prev == PrevTime(height, changeTimes[..i])
      {
        assert changeTypes[..i + 1][..i] == changeTypes[..i];
        assert changeTimes[..i + 1][..i] == changeTimes[..i];
        if changeTypes[i] != ty {
          total := total + (changeTimes[i] - prev);
        }
        prev := changeTimes[i];
        i := i + 1;
      }
      assert changeTypes[..i] == changeTypes;
      assert changeTimes[..i] == changeTimes;
      if GetFinalType() == ty {
        total := total + (parentHeight - prev);
      }
    }

    /** A new node with the same fields, sharing this node's parent and children. */
    method ShallowCopy() returns (n: SeedbankNode)
      ensures fresh(n)
      ensures n.Record() == Record()
    {
      n := new SeedbankNode(nr, height);
      n.parent := parent;
      n.children := children;
      n.nodeType := nodeType;
      n.nTypeChanges := nTypeChanges;
      n.changeTypes := changeTypes;
      n.changeTimes := changeTimes;
    }

    /**
     * The top node of copy(): the same fields, no parent, and at most the
     * first two children (copy() copies the left child and, when there is
     * one, the right child, never a third). The recursion into the
     * children is SeedbankTrees.SubtreeCopy.
     */
    method Copy() returns (n: SeedbankNode)
      ensures fresh(n)
      ensures n.Record() == Record().(parent := -1, children := children[..Min(2, |children|)])
    {
      n := ShallowCopy();
      n.parent := -1;
      n.children := children[..Min(2, |children|)];
    }

    /**
     * The node's own part of assignFrom(nodes, other): the other node's
     * number, height, type and changes, and no parent. The child slots are
     * overwritten only when the other node has a left child, and then
     * slot by slot (Overlaid). The recursion into the children is
     * SeedbankTrees.AssignedFrom.
     */
    method AssignFrom(other: SeedbankNode)
      modifies this
      ensures Record() == old(other.Record()).(parent := -1, children := Overlaid(old(children), old(other.children)))
    {
      var rec := other.Record();
      nr := rec.nr;
      height := rec.height;
      nodeType := rec.nodeType;
      nTypeChanges := rec.changeCount;
      changeTypes := rec.changeTypes;
      changeTimes := rec.changeTimes;
      parent := -1;
      children := Overlaid(children, rec.children);
    }
  }

  /**
   * A child list after setLeft(src[0]) and, when src has a second entry,
   * setRight(src[1]): the first min(2, |src|) slots come from src, later
   * slots of `cur` stay. An empty src leaves `cur` as it is.
   */
  function Overlaid(cur: seq<int>, src: seq<int>): (r: seq<int>)
    ensures |src| == 0 ==> r == cur
    ensures |r| == if |cur| > Min(2, |src|) then |cur| else Min(2, |src|)
    ensures r[..Min(2, |src|)] == src[..Min(2, |src|)]
    ensures forall i :: Min(2, |src|) <= i < |cur| ==> r[i] == cur[i]
  {
    var k := Min(2, |src|);
    src[..k] + (if |cur| > k then cur[k..] else [])
  }

  function Min(a: int, b: int): int { if a <= b then a else b }

  function InsertAt<T>(s: seq<T>, idx: int, x: T): (r: seq<T>)
    requires 0 <= idx <= |s|
  {
    s[..idx] + [x] + s[idx..]
  }

  function RemoveAt<T>(s: seq<T>, idx: int): (r: seq<T>)
    requires 0 <= idx < |s|
  {
    s[..idx] + s[idx + 1..]
  }

  /** Removing what was just inserted gives the list back. */
  lemma RemoveInsert<T>(s: seq<T>, idx: int, x: T)
    requires 0 <= idx <= |s|
    ensures RemoveAt(InsertAt(s, idx, x), idx) == s
  {
    assert InsertAt(s, idx, x)[..idx] == s[..idx];
    assert InsertAt(s, idx, x)[idx + 1..] == s[idx..];
  }

  /** An insertion puts x at idx, and every old entry keeps its relative order. */
  lemma InsertAtShape<T>(s: seq<T>, idx: int, x: T)
    requires 0 <= idx <= |s|
    ensures |InsertAt(s, idx, x)| == |s| + 1
    ensures InsertAt(s, idx, x)[idx] == x
    ensures forall i :: 0 <= i < idx ==> InsertAt(s, idx, x)[i] == s[i]
    ensures forall i :: idx <= i < |s| ==> InsertAt(s, idx, x)[i + 1] == s[i]
  {
  }

  /** A removal deletes entry idx and no other: earlier entries stay, later ones move down by one. */
  lemma RemoveAtShape<T>(s: seq<T>, idx: int)
    requires 0 <= idx < |s|
    ensures |RemoveAt(s, idx)| == |s| - 1
    ensures forall i :: 0 <= i < idx ==> RemoveAt(s, idx)[i] == s[i]
    ensures forall i :: idx <= i < |s| - 1 ==> RemoveAt(s, idx)[i] == s[i + 1]
  {
  }
}
