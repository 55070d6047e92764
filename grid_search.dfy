// GridSearch: an operator that sweeps the seedbank parameters c and K
// over a quantity x quantity grid, one grid point per proposal, c-major,
// accepting every point, and proposes nothing once the sweep is over.

module GridSearching {
  import opened Doubles

  /** The slack the sweep allows past each upper limit. */
  const Tolerance: real := 0.00001

  class GridSearch {
    var cLower: real
    var cUpper: real
    var KLower: real
    var KUpper: real
    var quantity: int
    var cStep: real
    var KStep: real
    var cNext: real
    var KNext: real
    /** The values of the c and K parameters the operator writes. */
    var c: real
    var K: real
    /**
     * Where the sweep stands: the row c points at, and the column K points at,
     * which is quantity from the end of a row until the next proposal resets it.
     */
    ghost var row: nat
    ghost var col: nat

    /** Steps wider than the tolerance: the sweep then stops at each upper limit. */
    ghost predicate Wide()
      reads this
    {
      cStep > Tolerance && KStep > Tolerance
    }

    /** The sweep is over: every row has been visited. */
    ghost predicate Done()
      reads this
    {
      row == quantity
    }

    /** The column the next proposal sets: a pending end of row starts the next row at 0. */
    ghost function NextColumn(): nat
      reads this
    {
      if col == quantity then 0 else col
    }

    /**
     * With wide steps, c stands at the current row and K at the current
     * column; a column of quantity, only after a row, means the row is over.
     */
    ghost predicate Valid()
      reads this
    {
      quantity >= 2 &&
      cStep == (cUpper - cLower) / (quantity - 1) as real &&
      KStep == (KUpper - KLower) / (quantity - 1) as real &&
      (Wide() ==>
        row <= quantity && col <= quantity &&
        (col == quantity ==> row > 0) && (Done() ==> col == quantity) &&
        cNext == GridPoint(cLower, row, cStep) &&
        KNext == GridPoint(KLower, col, KStep))
    }

    /** initAndValidate: the steps that put quantity points on each range, and the sweep at (cLower, KLower). */
    constructor (cLo: real, cUp: real, KLo: real, KUp: real, q: int, c0: real, K0: real)
      requires q >= 2
      ensures Valid() && row == 0 && col == 0
      ensures cLower == cLo && cUpper == cUp && KLower == KLo && KUpper == KUp && quantity == q
      ensures cStep == (cUp - cLo) / (q - 1) as real && KStep == (KUp - KLo) / (q - 1) as real
      ensures cNext == cLo && KNext == KLo && c == c0 && K == K0
    {
      cLower, cUpper, KLower, KUpper, quantity := cLo, cUp, KLo, KUp, q;
      cStep := (cUp - cLo) / (q - 1) as real;
      KStep := (KUp - KLo) / (q - 1) as real;
      cNext, KNext := cLo, KLo;
      c, K := c0, K0;
      row, col := 0, 0;
    }

    /**
     * proposal: once c has passed its upper limit, 0 and no change; otherwise
     * K is first reset to its lower limit if it has passed its own, then c and
     * K take the pending values, K moves one step and c moves one step when
     * that takes K past its limit, and the proposal is accepted (+infinity).
     * With wide steps this visits the grid row by row: the point set is the
     * current row and column, and the sweep ends after quantity rows.
     */
    method Proposal() returns (logHR: Double)
      requires Valid()
      modifies this
      ensures Valid()
      ensures cLower == old(cLower) && cUpper == old(cUpper) && KLower == old(KLower) && KUpper == old(KUpper)
      ensures quantity == old(quantity) && cStep == old(cStep) && KStep == old(KStep)
      ensures old(cNext) > cUpper + Tolerance ==>
        (logHR == Finite(0.0) && c == old(c) && K == old(K) && cNext == old(cNext) && KNext == old(KNext))
      ensures old(cNext) <= cUpper + Tolerance ==>
        (var k0 := if old(KNext) > KUpper + Tolerance then KLower else old(KNext);
         logHR == PosInf && c == old(cNext) && K == k0 && KNext == k0 + KStep &&
         cNext == (if KNext > KUpper + Tolerance then old(cNext) + cStep else old(cNext)))
      ensures Wide() ==> (old(Done()) <==> logHR == Finite(0.0)) && (!old(Done()) <==> logHR == PosInf)
      ensures Wide() && old(Done()) ==> row == old(row) && col == old(col)
      ensures Wide() && !old(Done()) ==>
        (var n := old(NextColumn());
         c == GridPoint(cLower, old(row), cStep) && K == GridPoint(KLower, n, KStep) &&
         (row, col) == SweepAdvance(quantity, old(row), old(col)))
    {
      if cNext > cUpper + Tolerance {
        if Wide() {
          Scaled(row, quantity, cLower, cUpper, cStep);
        }
        return Finite(0.0);
      }
      var k := KNext;
      if k > KUpper + Tolerance {
        k := KLower;
      }
      c := cNext;
      K := k;
      KNext := k + KStep;
      if KNext > KUpper + Tolerance {
        cNext := cNext + cStep;
      }
      if Wide() {
        row, col := SweepStep(quantity, cLower, cUpper, cStep, KLower, KUpper, KStep, row, col, c, K, KNext, cNext);
      }
      return PosInf;
    }
  }

  /** One accepted proposal, on plain values: the sweep moves from (row, col) to the next grid point. */
  lemma SweepStep(q: int, cLo: real, cUp: real, cStep: real, KLo: real, KUp: real, KStep: real,
                  row: nat, col: nat, c1: real, k1: real, kNext: real, cNext: real) returns (row': nat, col': nat)
    requires q >= 2 && cStep == (cUp - cLo) / (q - 1) as real && KStep == (KUp - KLo) / (q - 1) as real
    requires cStep > Tolerance && KStep > Tolerance
    requires row <= q && col <= q && (col == q ==> row > 0) && (row == q ==> col == q)
    requires c1 == GridPoint(cLo, row, cStep) && c1 <= cUp + Tolerance
    requires var k0 := GridPoint(KLo, col, KStep); k1 == if k0 > KUp + Tolerance then KLo else k0
    requires kNext == k1 + KStep
    requires cNext == if kNext > KUp + Tolerance then c1 + cStep else c1
    ensures row < q
    ensures var n := if col == q then 0 else col;
      k1 == GridPoint(KLo, n, KStep) && (row', col') == SweepAdvance(q, row, col)
    ensures kNext == GridPoint(KLo, col', KStep) && cNext == GridPoint(cLo, row', cStep)
    ensures row' <= q && col' <= q && (col' == q ==> row' > 0) && (row' == q ==> col' == q)
  {
    Scaled(row, q, cLo, cUp, cStep);
    Scaled(col, q, KLo, KUp, KStep);
    var n := if col == q then 0 else col;
    Scaled(n, q, KLo, KUp, KStep);
    Scaled(n + 1, q, KLo, KUp, KStep);
    Scaled(row, q, cLo, cUp, cStep);
    col' := n + 1;
    row' := if n + 1 == q then row + 1 else row;
  }

  /**
   * The sweep position after one more grid point: the column moves on from
   * the next column, and completing a row moves to the next row.
   */
  function SweepAdvance(q: int, row: nat, col: nat): (nat, nat)
    requires q >= 1
  {
    var n := if col == q then 0 else col;
    (if n + 1 == q then row + 1 else row, n + 1)
  }

  /** The sweep position after m grid points from the start. */
  function SweepAfter(q: int, m: nat): (nat, nat)
    requires q >= 1
  {
    if m == 0 then (0, 0) else SweepAdvance(q, SweepAfter(q, m - 1).0, SweepAfter(q, m - 1).1)
  }

  /** After r full rows and j more points the sweep is at row r, column j (q when a row has just ended). */
  lemma {:induction false} SweepAfterClosedForm(q: int, r: nat, j: nat)
    requires q >= 1 && j < q
    ensures SweepAfter(q, r * q + j) == (r, if r > 0 && j == 0 then q else j)
    decreases r * q + j
  {
    if j > 0 {
      SweepAfterClosedForm(q, r, j - 1);
    } else if r > 0 {
      assert r * q + j - 1 == (r - 1) * q + (q - 1);
      SweepAfterClosedForm(q, r - 1, q - 1);
    }
  }

  /**
   * The grid in row-major order: the (m + 1)-th point set is row m / q and
   * column m mod q, and the sweep is over (c past its range) after exactly
   * q * q points.
   */
  lemma SweepOrder(q: int, m: nat)
    requires q >= 1
    ensures var p := SweepAfter(q, m); (if p.1 == q then 0 else p.1) == m % q && p.0 == m / q
    ensures m <= q * q ==> (SweepAfter(q, m).0 < q <==> m < q * q)
  {
    var r, j := m / q, m % q;
    Euclid(q, m);
    SweepAfterClosedForm(q, r, j);
    RowsBelow(q, r, j);
  }

  /** Euclidean division of a natural number. */
  lemma Euclid(q: int, m: nat)
    requires q >= 1
    ensures m == (m / q) * q + m % q && 0 <= m % q < q && m / q >= 0
  {
  }

  /** r full rows and j < q more points stay below q * q exactly when r < q. */
  lemma RowsBelow(q: int, r: nat, j: nat)
    requires q >= 1 && j < q
    ensures r * q + j < q * q <==> r < q
  {
    if r >= q {
      assert (r - q) * q >= 0;
    } else {
      assert (q - 1 - r) * q >= 0;
    }
  }

  /** The grid value k steps above lo. */
  function GridPoint(lo: real, k: int, step: real): real
  {
    lo + k as real * step
  }

  /**
   * A grid position k lies within the range (with the tolerance) exactly when
   * k < q, the range being split into q - 1 steps of width above the tolerance.
   */
  lemma Scaled(k: int, q: int, lo: real, up: real, step: real)
    requires q >= 2 && step == (up - lo) / (q - 1) as real && step > Tolerance
    ensures GridPoint(lo, k, step) <= up + Tolerance <==> k < q
    ensures GridPoint(lo, k + 1, step) == GridPoint(lo, k, step) + step
  {
    assert (q - 1) as real * step == up - lo;
    if k < q {
      assert ((q - 1) - k) as real * step >= 0.0;
    } else {
      assert (k - q) as real * step >= 0.0;
      assert q as real * step == (q - 1) as real * step + step;
    }
  }
}
