/**
 * The sparse matrix the bindings in src.cpp are built on: Eigen's
 * `SparseMatrix<double>`, given only the documented effect of the operations
 * the bindings call.  A matrix is its shape and the finite map of its stored
 * entries; a position that is not stored reads as zero.  Values are `real`,
 * so summing duplicates and multiplying are exact.
 *
 * `Matrix` is the C++ value type (what `*a + *b` or `x * (*y)` yields);
 * `SparseMat` is a heap object holding one (what `new SparseMat(...)` makes and
 * the interpreter keeps a pointer to), the only thing updated in place.
 */
module SparseMatrix {

  /** A (row, column) position. */
  type Coord = (int, int)

  /** Eigen's `Triplet<double>`: one (row, col, value) record of a triplet list. */
  datatype Triplet = Triplet(row: int, col: int, value: real)

  function CoordOf(t: Triplet): Coord {
    (t.row, t.col)
  }

  /** The positions the triplets of `ts` name. */
  function CoordSet(ts: seq<Triplet>): set<Coord> {
    set t | t in ts :: CoordOf(t)
  }

  /** Every triplet lies inside a rows × cols matrix (Eigen asserts this). */
  predicate TripletsInShape(ts: seq<Triplet>, rows: int, cols: int) {
    forall t | t in ts :: 0 <= t.row < rows && 0 <= t.col < cols
  }

  /** Every stored position lies inside a rows × cols matrix. */
  predicate InShape(entries: map<Coord, real>, rows: int, cols: int) {
    forall k | k in entries :: 0 <= k.0 < rows && 0 <= k.1 < cols
  }

  /** Eigen's `coeff`: the stored value at `k`, or 0 when nothing is stored there. */
  function Coeff(entries: map<Coord, real>, k: Coord): real {
    if k in entries then entries[k] else 0.0
  }

  /** A sparse matrix as a value: its shape and its stored entries. */
  datatype Matrix = Matrix(rows: nat, cols: nat, entries: map<Coord, real>) {
    predicate Valid() {
      InShape(entries, rows, cols)
    }
  }

  predicate SameShape(a: Matrix, b: Matrix) {
    a.rows == b.rows && a.cols == b.cols
  }

  // ---------------------------------------------------------------------------
  // setFromTriplets: duplicates are summed, a sum that is zero stays stored.
  // ---------------------------------------------------------------------------

  /** Adds one triplet into the stored entries. */
  function Accumulate(entries: map<Coord, real>, t: Triplet): map<Coord, real> {
    entries[CoordOf(t) := Coeff(entries, CoordOf(t)) + t.value]
  }

  /** The stored entries `setFromTriplets` produces from `ts`. */
  function Finalize(ts: seq<Triplet>): (entries: map<Coord, real>)
    ensures entries.Keys == CoordSet(ts)
  {
    if ts == [] then map[]
    else
      var init := ts[..|ts| - 1];
      assert ts == init + [ts[|ts| - 1]];
      Accumulate(Finalize(init), ts[|ts| - 1])
  }

  /** The sum of the values of the triplets in `ts` that name `k` (0 when none does). */
  function SumAt(ts: seq<Triplet>, k: Coord): real {
    if ts == [] then 0.0
    else (if CoordOf(ts[0]) == k then ts[0].value else 0.0) + SumAt(ts[1..], k)
  }

  lemma {:induction false} SumAtAppend(ts: seq<Triplet>, us: seq<Triplet>, k: Coord)
    ensures SumAt(ts + us, k) == SumAt(ts, k) + SumAt(us, k)
  {
    if ts != [] {
      assert (ts + us)[1..] == ts[1..] + us;
      SumAtAppend(ts[1..], us, k);
    } else {
      assert ts + us == us;
    }
  }

  /** A position that no triplet names sums to zero. */
  lemma {:induction false} SumAtAbsent(ts: seq<Triplet>, k: Coord)
    requires k !in CoordSet(ts)
    ensures SumAt(ts, k) == 0.0
  {
    if ts != [] {
      assert ts[0] in ts;
      assert CoordSet(ts[1..]) <= CoordSet(ts) by {
        forall t | t in ts[1..] ensures t in ts { }
      }
      SumAtAbsent(ts[1..], k);
    }
  }

  /** Finalising sums duplicates: the value read at any position is the sum of
      the values the triplet list gives for it, and exactly the named positions
      are stored. */
  lemma {:induction false} FinalizeSums(ts: seq<Triplet>)
    ensures Finalize(ts).Keys == CoordSet(ts)
    ensures forall k :: Coeff(Finalize(ts), k) == SumAt(ts, k)
  {
    if ts != [] {
      var init, last := ts[..|ts| - 1], ts[|ts| - 1];
      assert ts == init + [last];
      FinalizeSums(init);
      forall k ensures Coeff(Finalize(ts), k) == SumAt(ts, k) {
        SumAtAppend(init, [last], k);
        assert SumAt([last], k) == (if CoordOf(last) == k then last.value else 0.0) + SumAt([], k);
      }
    }
  }

  /** Finalising keeps the triplets inside the declared shape. */
  lemma FinalizeInShape(ts: seq<Triplet>, rows: int, cols: int)
    requires TripletsInShape(ts, rows, cols)
    ensures InShape(Finalize(ts), rows, cols)
  {
    forall k | k in Finalize(ts) ensures 0 <= k.0 < rows && 0 <= k.1 < cols {
      var t :| t in ts && CoordOf(t) == k;
    }
  }

  /** Two triplets of `ts` never name the same position. */
  predicate DistinctCoords(ts: seq<Triplet>) {
    forall p, q | 0 <= p < q < |ts| :: CoordOf(ts[p]) != CoordOf(ts[q])
  }

  /** In a list without duplicates, the last triplet names a position no earlier one does. */
  lemma LastIsNew(ts: seq<Triplet>)
    requires DistinctCoords(ts) && ts != []
    ensures CoordOf(ts[|ts| - 1]) !in CoordSet(ts[..|ts| - 1])
  {
    var init := ts[..|ts| - 1];
    forall t | t in init ensures CoordOf(t) != CoordOf(ts[|ts| - 1]) {
      var p :| 0 <= p < |init| && init[p] == t;
      assert ts[p] == t;
    }
  }

  /** Without duplicates, each triplet's value is stored as it is. */
  lemma {:induction false} FinalizeDistinct(ts: seq<Triplet>)
    requires DistinctCoords(ts)
    ensures forall p | 0 <= p < |ts| :: Finalize(ts)[CoordOf(ts[p])] == ts[p].value
  {
    if ts != [] {
      var init, last := ts[..|ts| - 1], ts[|ts| - 1];
      assert ts == init + [last];
      FinalizeDistinct(init);
      LastIsNew(ts);
    }
  }

  /** Without duplicates there are as many stored entries as triplets. */
  lemma {:induction false} FinalizeCount(ts: seq<Triplet>)
    requires DistinctCoords(ts)
    ensures |Finalize(ts)| == |ts|
  {
    if ts != [] {
      var init, last := ts[..|ts| - 1], ts[|ts| - 1];
      assert ts == init + [last];
      FinalizeCount(init);
      LastIsNew(ts);
    }
  }

  /** The stored entries after writing the triplets of `ts` one at a time into
      an empty matrix, each write overwriting its position (what `SetCoeff`
      does to the entries). */
  function InsertAll(ts: seq<Triplet>): map<Coord, real> {
    if ts == [] then map[]
    else InsertAll(ts[..|ts| - 1])[CoordOf(ts[|ts| - 1]) := ts[|ts| - 1].value]
  }

  /** Without duplicates, writing the entries one by one stores the same
      entries as finalising the triplet list. */
  lemma {:induction false} InsertAllIsFinalize(ts: seq<Triplet>)
    requires DistinctCoords(ts)
    ensures InsertAll(ts) == Finalize(ts)
  {
    if ts != [] {
      var init, last := ts[..|ts| - 1], ts[|ts| - 1];
      assert ts == init + [last];
      InsertAllIsFinalize(init);
      LastIsNew(ts);
    }
  }

  // ---------------------------------------------------------------------------
  // The arithmetic operators the bindings call.
  // ---------------------------------------------------------------------------

  /** `a + b`: stored over the union of both operands' entries. */
  function Plus(a: Matrix, b: Matrix): (r: Matrix)
    requires SameShape(a, b)
    ensures SameShape(r, a)
    ensures r.entries.Keys == a.entries.Keys + b.entries.Keys
    ensures forall k :: Coeff(r.entries, k) == Coeff(a.entries, k) + Coeff(b.entries, k)
    ensures a.Valid() && b.Valid() ==> r.Valid()
  {
    Matrix(a.rows, a.cols,
      map k | k in a.entries.Keys + b.entries.Keys :: Coeff(a.entries, k) + Coeff(b.entries, k))
  }

  /** `a - b`: stored over the union of both operands' entries. */
  function Minus(a: Matrix, b: Matrix): (r: Matrix)
    requires SameShape(a, b)
    ensures SameShape(r, a)
    ensures r.entries.Keys == a.entries.Keys + b.entries.Keys
    ensures forall k :: Coeff(r.entries, k) == Coeff(a.entries, k) - Coeff(b.entries, k)
    ensures a.Valid() && b.Valid() ==> r.Valid()
  {
    Matrix(a.rows, a.cols,
      map k | k in a.entries.Keys + b.entries.Keys :: Coeff(a.entries, k) - Coeff(b.entries, k))
  }

  /** `a.cwiseProduct(b)`: stored only where both operands store a value. */
  function CwiseProduct(a: Matrix, b: Matrix): (r: Matrix)
    requires SameShape(a, b)
    ensures SameShape(r, a)
    ensures r.entries.Keys == a.entries.Keys * b.entries.Keys
    ensures forall k :: Coeff(r.entries, k) == Coeff(a.entries, k) * Coeff(b.entries, k)
    ensures a.Valid() ==> r.Valid()
  {
    Matrix(a.rows, a.cols,
      map k | k in a.entries.Keys * b.entries.Keys :: a.entries[k] * b.entries[k])
  }

  /** `x * a`: the structure of `a`, every stored value scaled. */
  function ScaleLeft(x: real, a: Matrix): (r: Matrix)
    ensures SameShape(r, a) && r.entries.Keys == a.entries.Keys
    ensures forall k :: Coeff(r.entries, k) == x * Coeff(a.entries, k)
    ensures a.Valid() ==> r.Valid()
  {
    Matrix(a.rows, a.cols, map k | k in a.entries :: x * a.entries[k])
  }

  /** `a * y`: the structure of `a`, every stored value scaled. */
  function ScaleRight(a: Matrix, y: real): (r: Matrix)
    ensures SameShape(r, a) && r.entries.Keys == a.entries.Keys
    ensures forall k :: Coeff(r.entries, k) == Coeff(a.entries, k) * y
    ensures a.Valid() ==> r.Valid()
  {
    Matrix(a.rows, a.cols, map k | k in a.entries :: a.entries[k] * y)
  }

  /** The scalar may stand on either side. */
  lemma ScaleCommutes(x: real, a: Matrix)
    ensures ScaleLeft(x, a) == ScaleRight(a, x)
  {
    assert ScaleLeft(x, a).entries == ScaleRight(a, x).entries;
  }

  /** Subtraction is addition of the operand scaled by -1. */
  lemma MinusIsPlusNegated(a: Matrix, b: Matrix)
    requires SameShape(a, b)
    ensures Minus(a, b) == Plus(a, ScaleLeft(-1.0, b))
  {
    assert Minus(a, b).entries == Plus(a, ScaleLeft(-1.0, b)).entries;
  }

  /** `a + (-1) * a` keeps the structure of `a` and stores zero everywhere:
      cancellation is not compacted away. */
  lemma AdditiveInverse(a: Matrix)
    ensures Plus(a, ScaleLeft(-1.0, a)).entries.Keys == a.entries.Keys
    ensures forall k | k in Plus(a, ScaleLeft(-1.0, a)).entries :: Plus(a, ScaleLeft(-1.0, a)).entries[k] == 0.0
  {
  }

  /** The element-wise product of matrices with disjoint structure stores nothing. */
  lemma DisjointProductIsEmpty(a: Matrix, b: Matrix)
    requires SameShape(a, b) && a.entries.Keys !! b.entries.Keys
    ensures CwiseProduct(a, b).entries == map[]
  {
  }

  // ---------------------------------------------------------------------------
  // A matrix on the heap.
  // ---------------------------------------------------------------------------

  class SparseMat {
    const rows: nat
    const cols: nat
    var entries: map<Coord, real>

    ghost predicate Valid()
      reads this
    {
      InShape(entries, rows, cols)
    }

    /** The matrix value this object holds. */
    function Contents(): (m: Matrix)
      reads this
      ensures m.rows == rows && m.cols == cols && m.entries == entries
    {
      Matrix(rows, cols, entries)
    }

    /** `new SparseMat(rows, cols)`: nothing stored. */
    constructor (rows: nat, cols: nat)
      ensures this.rows == rows && this.cols == cols && entries == map[]
      ensures Valid()
    {
      this.rows := rows;
      this.cols := cols;
      entries := map[];
    }

    /** `setFromTriplets`: replaces the contents by the finalised triplet list. */
    method SetFromTriplets(ts: seq<Triplet>)
      requires TripletsInShape(ts, rows, cols)
      modifies this
      ensures entries == Finalize(ts)
      ensures Valid()
    {
      entries := Finalize(ts);
      FinalizeInShape(ts, rows, cols);
    }

    /** `coeffRef(i, j)` used as a value: yields the stored value, inserting an
        explicit zero when nothing is stored there. */
    method CoeffRef(i: int, j: int) returns (x: real)
      requires 0 <= i < rows && 0 <= j < cols
      requires Valid()
      modifies this
      ensures x == Coeff(old(entries), (i, j))
      ensures entries == old(entries)[(i, j) := x]
      ensures Valid()
    {
      x := Coeff(entries, (i, j));
      entries := entries[(i, j) := x];
    }

    /** `coeffRef(i, j) = x`: stores `x` at (i, j), inserting the entry if absent. */
    method SetCoeff(i: int, j: int, x: real)
      requires 0 <= i < rows && 0 <= j < cols
      requires Valid()
      modifies this
      ensures entries == old(entries)[(i, j) := x]
      ensures Valid()
    {
      entries := entries[(i, j) := x];
    }
  }
}
