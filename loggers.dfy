// Loggers that summarise a seedbank tree: the total dormant and active
// branch length (TypeLengthsLogger), the dormant share of the tree length
// (DormantPercentage), and the numbers of dormant and active branch
// segments (NodeTypeCountsLogger). Each recomputes its summary from the
// tree snapshot on every update; the printing methods are not modelled.

module Loggers {
  import opened Wrappers
  import opened Doubles
  import opened SeedbankNodes
  import opened SeedbankTrees
  import opened TypeLengths

  /**
   * The update loop shared by the two length loggers: resets both slots and
   * adds every non-root branch's dormant and active parts. A non-root node
   * whose type is not 0 or 1 indexes outside the two slots; the slots then
   * hold the totals of the nodes before it.
   */
  method AccumulateLengths(lengths: array<real>, v: seq<NodeRec>) returns (r: Outcome)
    requires lengths.Length == 2 && Shaped(v)
    modifies lengths
    ensures r == Done <==> forall i :: 0 <= i < |v| ==> !BadType(v, i)
    ensures r == Done ==> lengths[0] == TreePart(v, 0, |v|) && lengths[1] == TreePart(v, 1, |v|)
    ensures r.Failed? ==> r.error == IndexOutOfBounds
    ensures r.Failed? ==> exists k :: (0 <= k < |v| && BadType(v, k) && (forall j :: 0 <= j < k ==> !BadType(v, j)) &&
      lengths[0] == TreePart(v, 0, k) && lengths[1] == TreePart(v, 1, k))
  {
    lengths[0] := 0.0;
    lengths[1] := 0.0;
    var i := 0;
    while i < |v|
      invariant 0 <= i <= |v|
      invariant forall j :: 0 <= j < i ==> !BadType(v, j)
      invariant lengths[0] == TreePart(v, 0, i) && lengths[1] == TreePart(v, 1, i)
    {
      var n := v[i];
      if n.parent != -1 {
        var parts := BranchLengths(n, v[n.parent].height);
        if parts.None? {
          assert BadType(v, i);
          return Failed(IndexOutOfBounds);
        }
        lengths[0] := lengths[0] + parts.value.0;
        lengths[1] := lengths[1] + parts.value.1;
      }
      i := i + 1;
    }
    return Done;
  }

  /** getArrayValue's slot selection: dim 0 or 1, anything else an IllegalArgumentException. */
  function Slot<T>(values: seq<T>, dim: int): (r: Result<T>)
    requires |values| == 2
    ensures r.Ok? <==> dim == 0 || dim == 1
    ensures r.Ok? ==> r.value == values[dim]
    ensures r.Fail? ==> r.error == IllegalArgument
  {
    if dim == 0 then Ok(values[0]) else if dim == 1 then Ok(values[1]) else Fail(IllegalArgument)
  }

  /** TypeLengthsLogger: lengths[0] is the dormant and lengths[1] the active length of the tree. */
  class TypeLengthsLogger {
    var lengths: array<real>

    ghost predicate Valid() reads this { lengths.Length == 2 }

    /** initAndValidate: both lengths 0. */
    constructor ()
      ensures Valid() && fresh(lengths) && lengths[..] == [0.0, 0.0]
    {
      lengths := new real[2](_ => 0.0);
    }

    method Update(v: seq<NodeRec>) returns (r: Outcome)
      requires Valid() && Shaped(v)
      modifies lengths
      ensures Valid()
      ensures r == Done <==> forall i :: 0 <= i < |v| ==> !BadType(v, i)
      ensures r == Done ==> lengths[..] == [TreePart(v, 0, |v|), TreePart(v, 1, |v|)]
      ensures r.Failed? ==> r.error == IndexOutOfBounds
    {
      r := AccumulateLengths(lengths, v);
      if r == Done {
        assert lengths[..] == [lengths[0], lengths[1]];
      }
    }

    function GetDimension(): (d: int)
      ensures d == 2
    {
      2
    }

    /** getArrayValue answers exactly for the dimensions getDimension announces: 0 up to 2. */
    lemma DimensionsServed(values: seq<real>, dim: int)
      requires |values| == 2
      ensures Slot(values, dim).Ok? <==> 0 <= dim < GetDimension()
    {
    }

    /** getArrayValue: recomputes, then returns the requested length. */
    method GetArrayValue(v: seq<NodeRec>, dim: int) returns (r: Result<real>)
      requires Valid() && Shaped(v)
      modifies lengths
      ensures Valid()
      ensures (forall i :: 0 <= i < |v| ==> !BadType(v, i)) ==>
        r == Slot([TreePart(v, 0, |v|), TreePart(v, 1, |v|)], dim)
      ensures !(forall i :: 0 <= i < |v| ==> !BadType(v, i)) ==> r == Fail(IndexOutOfBounds)
    {
      var u := Update(v);
      if u.Failed? {
        return Fail(u.error);
      }
      r := Slot(lengths[..], dim);
    }
  }

  /**
   * The two totals partition the tree length, and on a tree whose branches
   * are time-ordered neither is negative.
   */
  lemma LoggedLengths(v: seq<NodeRec>)
    requires Shaped(v) && forall i :: 0 <= i < |v| ==> !BadType(v, i)
    ensures TreePart(v, 0, |v|) + TreePart(v, 1, |v|) == TreeLength(v, |v|)
    ensures (forall i :: 0 <= i < |v| && v[i].parent != -1 ==> BranchTimesOrdered(v[v[i].parent].height, v[i])) ==>
      TreePart(v, 0, |v|) >= 0.0 && TreePart(v, 1, |v|) >= 0.0
  {
    TreePartition(v, |v|);
    if forall i :: 0 <= i < |v| && v[i].parent != -1 ==> BranchTimesOrdered(v[v[i].parent].height, v[i]) {
      TreePartNonNegative(v, 0, |v|);
      TreePartNonNegative(v, 1, |v|);
    }
  }

  /** The dormant share of a tree with dormant length d and active length a, as an IEEE division. */
  function Share(d: real, a: real): Double
  {
    Div(d, d + a)
  }

  /** A non-negative split of a positive total gives a share in [0, 1]; a zero total gives NaN. */
  lemma ShareRange(d: real, a: real)
    requires d >= 0.0 && a >= 0.0
    ensures d + a > 0.0 ==> Share(d, a).Finite? && 0.0 <= Share(d, a).v <= 1.0
    ensures d + a == 0.0 ==> Share(d, a) == NaN
  {
    if d + a > 0.0 {
      assert d / (d + a) <= (d + a) / (d + a);
    }
  }

  /**
   * DormantPercentage: the same two lengths, and percentage = dormant /
   * (dormant + active). Its initAndValidate declares a local `percentage`
   * that shadows the field, so the field keeps Java's default 0.
   */
  class DormantPercentage {
    var percentage: Double
    var lengths: array<real>
    var logLengths: bool

    ghost predicate Valid() reads this { lengths.Length == 2 }

    constructor (logLengthsInput: bool)
      ensures Valid() && fresh(lengths) && lengths[..] == [0.0, 0.0]
      ensures percentage == Finite(0.0) && logLengths == logLengthsInput
    {
      percentage := Finite(0.0);
      lengths := new real[2](_ => 0.0);
      logLengths := logLengthsInput;
    }

    method Update(v: seq<NodeRec>) returns (r: Outcome)
      requires Valid() && Shaped(v)
      modifies this, lengths
      ensures Valid() && lengths == old(lengths) && logLengths == old(logLengths)
      ensures r == Done <==> forall i :: 0 <= i < |v| ==> !BadType(v, i)
      ensures r == Done ==> lengths[..] == [TreePart(v, 0, |v|), TreePart(v, 1, |v|)]
      ensures r == Done ==> percentage == Share(TreePart(v, 0, |v|), TreePart(v, 1, |v|))
      ensures r.Failed? ==> r.error == IndexOutOfBounds && percentage == old(percentage)
    {
      r := AccumulateLengths(lengths, v);
      if r == Done {
        assert lengths[..] == [lengths[0], lengths[1]];
        percentage := Share(lengths[0], lengths[1]);
      }
    }

    function GetDimension(): (d: int)
      ensures d == 1
    {
      1
    }

    /** getArrayValue: recomputes and returns the percentage, whatever dim is. */
    method GetArrayValue(v: seq<NodeRec>, dim: int) returns (r: Result<Double>)
      requires Valid() && Shaped(v)
      modifies this, lengths
      ensures Valid() && lengths == old(lengths)
      ensures (forall i :: 0 <= i < |v| ==> !BadType(v, i)) ==>
        r == Ok(Share(TreePart(v, 0, |v|), TreePart(v, 1, |v|))) && percentage == r.value
      ensures !(forall i :: 0 <= i < |v| ==> !BadType(v, i)) ==> r == Fail(IndexOutOfBounds)
    {
      var u := Update(v);
      if u.Failed? {
        return Fail(u.error);
      }
      return Ok(percentage);
    }
  }

  /**
   * On a time-ordered tree with positive length the dormant percentage is
   * the dormant fraction of the tree length, a number in [0, 1].
   */
  lemma PercentageIsFraction(v: seq<NodeRec>)
    requires Shaped(v) && forall i :: 0 <= i < |v| ==> !BadType(v, i)
    requires forall i :: 0 <= i < |v| && v[i].parent != -1 ==> BranchTimesOrdered(v[v[i].parent].height, v[i])
    requires TreeLength(v, |v|) > 0.0
    ensures Share(TreePart(v, 0, |v|), TreePart(v, 1, |v|)) == Finite(TreePart(v, 0, |v|) / TreeLength(v, |v|))
    ensures 0.0 <= TreePart(v, 0, |v|) / TreeLength(v, |v|) <= 1.0
  {
    LoggedLengths(v);
    ShareRange(TreePart(v, 0, |v|), TreePart(v, 1, |v|));
  }

  /*
   * NodeTypeCountsLogger: every node adds 1 at its own type; a non-root
   * branch of c changes adds c/2 dormant and 1 + c/2 active segments when
   * the node is dormant, and c/2 of each when it is active.
   */

  /** What node i adds to counts[ty]. */
  function NodeContribution(v: seq<NodeRec>, ty: int, i: int): int
    requires 0 <= i < |v| && v[i].changeCount >= 0
  {
    var c := v[i].changeCount;
    (if v[i].nodeType == ty then 1 else 0) +
    (if v[i].parent == -1 then 0
     else if v[i].nodeType == 0 then (if ty == 0 then c / 2 else 1 + c / 2)
     else c / 2)
  }

  /** counts[ty] after the first n nodes. */
  function TypeCount(v: seq<NodeRec>, ty: int, n: nat): int
    requires n <= |v| && Shaped(v)
  {
    if n == 0 then 0 else TypeCount(v, ty, n - 1) + NodeContribution(v, ty, n - 1)
  }

  predicate BinaryType(v: seq<NodeRec>, i: int)
    requires 0 <= i < |v|
  {
    v[i].nodeType == 0 || v[i].nodeType == 1
  }

  /** The update loop: counts[nodeType] is indexed first, so any node of another type than 0/1 throws. */
  method CountTypes(counts: array<int>, v: seq<NodeRec>) returns (r: Outcome)
    requires counts.Length == 2 && Shaped(v)
    modifies counts
    ensures r == Done <==> forall i :: 0 <= i < |v| ==> BinaryType(v, i)
    ensures r == Done ==> counts[0] == TypeCount(v, 0, |v|) && counts[1] == TypeCount(v, 1, |v|)
    ensures r.Failed? ==> r.error == IndexOutOfBounds
  {
    counts[0] := 0;
    counts[1] := 0;
    var i := 0;
    while i < |v|
      invariant 0 <= i <= |v|
      invariant forall j :: 0 <= j < i ==> BinaryType(v, j)
      invariant counts[0] == TypeCount(v, 0, i) && counts[1] == TypeCount(v, 1, i)
    {
      var n := v[i];
      if !(n.nodeType == 0 || n.nodeType == 1) {
        assert !BinaryType(v, i);
        return Failed(IndexOutOfBounds);
      }
      counts[n.nodeType] := counts[n.nodeType] + 1;
      if n.parent != -1 {
        if n.nodeType == 0 {
          counts[0] := counts[0] + n.changeCount / 2;
          counts[1] := counts[1] + 1 + n.changeCount / 2;
        } else {
          counts[0] := counts[0] + n.changeCount / 2;
          counts[1] := counts[1] + n.changeCount / 2;
        }
      }
      i := i + 1;
    }
    return Done;
  }

  class NodeTypeCountsLogger {
    var counts: array<int>

    ghost predicate Valid() reads this { counts.Length == 2 }

    constructor ()
      ensures Valid() && fresh(counts) && counts[..] == [0, 0]
    {
      counts := new int[2](_ => 0);
    }

    method Update(v: seq<NodeRec>) returns (r: Outcome)
      requires Valid() && Shaped(v)
      modifies counts
      ensures Valid()
      ensures r == Done <==> forall i :: 0 <= i < |v| ==> BinaryType(v, i)
      ensures r == Done ==> counts[..] == [TypeCount(v, 0, |v|), TypeCount(v, 1, |v|)]
      ensures r.Failed? ==> r.error == IndexOutOfBounds
    {
      r := CountTypes(counts, v);
      if r == Done {
        assert counts[..] == [counts[0], counts[1]];
      }
    }

    method GetArrayValue(v: seq<NodeRec>, dim: int) returns (r: Result<int>)
      requires Valid() && Shaped(v)
      modifies counts
      ensures Valid()
      ensures (forall i :: 0 <= i < |v| ==> BinaryType(v, i)) ==>
        r == Slot([TypeCount(v, 0, |v|), TypeCount(v, 1, |v|)], dim)
      ensures !(forall i :: 0 <= i < |v| ==> BinaryType(v, i)) ==> r == Fail(IndexOutOfBounds)
    {
      var u := Update(v);
      if u.Failed? {
        return Fail(u.error);
      }
      r := Slot(counts[..], dim);
    }
  }

  /** The number of type-ty segments of a branch of c changes that starts in type cur and flips at every change. */
  function SegmentsOfType(ty: int, cur: int, c: nat): nat
    decreases c
  {
    (if cur == ty then 1 else 0) + (if c == 0 then 0 else SegmentsOfType(ty, 1 - cur, c - 1))
  }

  lemma {:induction false} SegmentsClosedForm(ty: int, cur: int, c: nat)
    requires (ty == 0 || ty == 1) && (cur == 0 || cur == 1)
    ensures SegmentsOfType(ty, cur, c) == if cur == ty then c / 2 + 1 else (c + 1) / 2
    decreases c
  {
    if c > 0 {
      SegmentsClosedForm(ty, 1 - cur, c - 1);
    }
  }

  /** The branch ends active: an even change count on an active node, an odd one on a dormant node. */
  predicate EndsActive(n: NodeRec)
  {
    (n.nodeType == 1 && n.changeCount % 2 == 0) || (n.nodeType == 0 && n.changeCount % 2 == 1)
  }

  /** The number of type-ty segments over the first n branches plus the roots of type ty. */
  function SegmentCount(v: seq<NodeRec>, ty: int, n: nat): int
    requires n <= |v| && Shaped(v)
  {
    if n == 0 then 0
    else
      var last := if v[n - 1].parent == -1 then (if v[n - 1].nodeType == ty then 1 else 0)
        else SegmentsOfType(ty, v[n - 1].nodeType, v[n - 1].changeCount);
      SegmentCount(v, ty, n - 1) + last
  }

  /**
   * When every non-root branch ends in the active type (as branches do that
   * end in a coalescence), the logger's counts are the numbers of dormant
   * and active segments of the tree, each root counting as one segment of
   * its own type.
   */
  lemma {:induction false} CountsAreSegments(v: seq<NodeRec>, ty: int, n: nat)
    requires Shaped(v) && n <= |v| && (ty == 0 || ty == 1)
    requires forall i :: 0 <= i < n ==> BinaryType(v, i)
    requires forall i :: 0 <= i < n && v[i].parent != -1 ==> EndsActive(v[i])
    ensures TypeCount(v, ty, n) == SegmentCount(v, ty, n)
  {
    if n > 0 {
      CountsAreSegments(v, ty, n - 1);
      var i := n - 1;
      assert BinaryType(v, i);
      if v[i].parent != -1 {
        assert EndsActive(v[i]);
        SegmentsClosedForm(ty, v[i].nodeType, v[i].changeCount);
      }
    }
  }
}
