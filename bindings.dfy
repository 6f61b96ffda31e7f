/**
 * The interpreter bindings of src.cpp: index wrap-around, single-entry read and
 * write, the builders (identity, triplet list, column producer), extraction to
 * a triplet list, and the arithmetic dispatch.
 *
 * Interpreter values are a small sum type; what a binding leaves on the
 * interpreter stack is its result, and an error it raises is a `Failure`.
 */
module SparseBindings {
  import opened SparseMatrix
  import opened Listing

  /** A value of the interpreter, as far as these bindings look at it. */
  datatype Value =
    | Int(i: int)              // an integer (type code 6)
    | Float(x: real)           // any other number (type codes 5 and 7)
    | Tuple(items: seq<Value>)
    | Sparse(m: SparseMat)     // a pointer to a sparse matrix (type code 16)
    | Other                    // nil, strings, functions, ...

  datatype Dim = Row | Column

  datatype Error =
    | InvalidArguments          // add, sub, mul: an operand is not a matrix
    | InvalidArgument           // elem: no matrix
    | NoStateMatrix             // setElem: no matrix in the state
    | InvalidIndex(dim: Dim, index: int)
    | EyeRequiresInt
    | EyeInvalidSize
    | ImproperList              // fromList: an element is not a 3-tuple
    | ToListRequiresSparse
    | InvalidSize(rows: int, cols: int)
    | InvalidReturnValue        // fromColFn: the producer gave something that is not a 2-tuple
    | NullDereference           // C++ would dereference a null pointer: undefined behaviour

  datatype Result<T> = Success(value: T) | Failure(error: Error)

  const MaxEyeSize := 100000
  const MaxColFnSize := 10000000

  // ---------------------------------------------------------------------------
  // Reading arguments.
  // ---------------------------------------------------------------------------

  function Objects(v: Value): set<object> {
    if v.Sparse? then {v.m} else {}
  }

  /** `sil_topointer`: the matrix a value points to, or null. */
  function TopPointer(v: Value): (p: SparseMat?)
    ensures p != null <==> v.Sparse?
    ensures p != null ==> p == v.m
  {
    if v.Sparse? then v.m else null
  }

  /** The type codes 5, 6 and 7 that `mul_slow` treats as numbers. */
  predicate IsNumber(v: Value) {
    v.Int? || v.Float?
  }

  /** `sil_tointeger`: a float truncates toward zero, a non-number reads as 0. */
  function ToInteger(v: Value): int {
    match v
    case Int(i) => i
    case Float(x) => if x >= 0.0 then x.Floor else -((-x).Floor)
    case _ => 0
  }

  /** `sil_todouble`: a non-number reads as 0. */
  function ToDouble(v: Value): real {
    match v
    case Int(i) => i as real
    case Float(x) => x
    case _ => 0.0
  }

  // ---------------------------------------------------------------------------
  // READ_WRAP and the two single-entry bindings.
  // ---------------------------------------------------------------------------

  /** `READ_WRAP`: a negative index counts from the end; what is still outside
      [0, max) is rejected, and the message reports the wrapped value. */
  function ReadWrap(index: int, max: nat, dim: Dim): (r: Result<int>)
    ensures r.Success? <==> -(max as int) <= index < max
    ensures r.Success? ==> 0 <= r.value < max && r.value % max == index % max
    ensures 0 <= index < max ==> r == Success(index)
    ensures -(max as int) <= index < 0 ==> r == Success(index + max)
    ensures r.Failure? ==> r.error == InvalidIndex(dim, if index < 0 then index + max else index)
  {
    var out := if index < 0 then index + max else index;
    if out < 0 || out >= max then Failure(InvalidIndex(dim, out)) else Success(out)
  }

  /** Both index checks of `elem` and `setElem`: the row first, then the column. */
  function Locate(i: int, j: int, rows: nat, cols: nat): (r: Result<Coord>)
    ensures r.Success? <==> -(rows as int) <= i < rows && -(cols as int) <= j < cols
    ensures r.Success? ==> 0 <= r.value.0 < rows && 0 <= r.value.1 < cols
    ensures r.Success? ==> r.value == (ReadWrap(i, rows, Row).value, ReadWrap(j, cols, Column).value)
    ensures !(-(rows as int) <= i < rows) ==> r == Failure(ReadWrap(i, rows, Row).error)
    ensures -(rows as int) <= i < rows && !(-(cols as int) <= j < cols) ==> r == Failure(ReadWrap(j, cols, Column).error)
  {
    var row := ReadWrap(i, rows, Row);
    if row.Failure? then Failure(row.error)
    else
      var col := ReadWrap(j, cols, Column);
      if col.Failure? then Failure(col.error) else Success((row.value, col.value))
  }

  /** `elem`: the value at the wrapped (i, j), 0 when nothing is stored there.
      The read goes through `coeffRef`, so it may store an explicit zero at
      (i, j); no position's value changes. */
  method Elem(a: Value, i: int, j: int) returns (r: Result<real>)
    requires a.Sparse? ==> a.m.Valid()
    modifies Objects(a)
    ensures !a.Sparse? ==> r == Failure(InvalidArgument)
    ensures a.Sparse? && Locate(i, j, a.m.rows, a.m.cols).Failure? ==>
      r == Failure(Locate(i, j, a.m.rows, a.m.cols).error) && a.m.entries == old(a.m.entries)
    ensures a.Sparse? && Locate(i, j, a.m.rows, a.m.cols).Success? ==>
      var k := Locate(i, j, a.m.rows, a.m.cols).value;
      && r == Success(Coeff(old(a.m.entries), k))
      && a.m.entries.Keys == old(a.m.entries).Keys + {k}
      && forall q :: Coeff(a.m.entries, q) == Coeff(old(a.m.entries), q)
    ensures a.Sparse? ==> a.m.Valid()
  {
    var A := TopPointer(a);
    if A == null {
      return Failure(InvalidArgument);
    }
    var row := ReadWrap(i, A.rows, Row);
    if row.Failure? {
      return Failure(row.error);
    }
    var col := ReadWrap(j, A.cols, Column);
    if col.Failure? {
      return Failure(col.error);
    }
    var x := A.CoeffRef(row.value, col.value);
    return Success(x);
  }

  /** `setElem`: both indices are checked before anything is written; then the
      wrapped (i, j) holds x and every other position keeps its value. */
  method SetElem(st: SparseMat?, i: int, j: int, x: real) returns (r: Result<()>)
    requires st != null ==> st.Valid()
    modifies st
    ensures st == null ==> r == Failure(NoStateMatrix)
    ensures st != null && Locate(i, j, st.rows, st.cols).Failure? ==>
      r == Failure(Locate(i, j, st.rows, st.cols).error) && st.entries == old(st.entries)
    ensures st != null && Locate(i, j, st.rows, st.cols).Success? ==>
      r == Success(()) && st.entries == old(st.entries)[Locate(i, j, st.rows, st.cols).value := x]
    ensures st != null ==> st.Valid()
  {
    if st == null {
      return Failure(NoStateMatrix);
    }
    var row := ReadWrap(i, st.rows, Row);
    if row.Failure? {
      return Failure(row.error);
    }
    var col := ReadWrap(j, st.cols, Column);
    if col.Failure? {
      return Failure(col.error);
    }
    st.SetCoeff(row.value, col.value, x);
    return Success(());
  }

  // ---------------------------------------------------------------------------
  // eye
  // ---------------------------------------------------------------------------

  /** The triplets (d, d, 1.0) for d = 0 .. n-1, in that order. */
  function Diagonal(n: nat): seq<Triplet> {
    seq(n, d => Triplet(d, d, 1.0))
  }

  /** The stored entries of the n × n identity: 1.0 at each (d, d) and nothing else. */
  predicate IsIdentity(entries: map<Coord, real>, n: int) {
    && (forall k | k in entries :: k.0 == k.1 && 0 <= k.0 < n && entries[k] == 1.0)
    && (forall d | 0 <= d < n :: (d, d) in entries)
  }

  lemma DiagonalIsIdentity(n: nat)
    ensures IsIdentity(Finalize(Diagonal(n)), n)
    ensures |Finalize(Diagonal(n))| == n
  {
    var ts := Diagonal(n);
    assert DistinctCoords(ts);
    FinalizeDistinct(ts);
    FinalizeCount(ts);
    var entries := Finalize(ts);
    forall k | k in entries ensures k.0 == k.1 && 0 <= k.0 < n && entries[k] == 1.0 {
      var t :| t in ts && CoordOf(t) == k;
      var p :| 0 <= p < n && ts[p] == t;
    }
    forall d | 0 <= d < n ensures (d, d) in entries {
      assert CoordOf(ts[d]) == (d, d);
    }
  }

  /** `eye`: the n × n identity, for an integer n in [0, 100000]. */
  method Eye(arg: Value) returns (r: Result<SparseMat>)
    ensures !arg.Int? ==> r == Failure(EyeRequiresInt)
    ensures arg.Int? ==> (r.Success? <==> 0 <= arg.i <= MaxEyeSize)
    ensures arg.Int? && r.Failure? ==> r.error == EyeInvalidSize
    ensures r.Success? ==>
      && fresh(r.value) && r.value.Valid()
      && r.value.rows == arg.i && r.value.cols == arg.i
      && IsIdentity(r.value.entries, arg.i)
      && |r.value.entries| == arg.i
      && forall p, q :: Coeff(r.value.entries, (p, q)) == if p == q && 0 <= p < arg.i then 1.0 else 0.0
  {
    if !arg.Int? {
      return Failure(EyeRequiresInt);
    }
    var n := arg.i;
    if n < 0 || n > MaxEyeSize {
      return Failure(EyeInvalidSize);
    }
    var I := new SparseMat(n, n);
    var trip: seq<Triplet> := [];
    for j := 0 to n
      invariant trip == Diagonal(j)
    {
      trip := trip + [Triplet(j, j, 1.0)];
      assert trip == Diagonal(j + 1);
    }
    assert TripletsInShape(trip, n, n) by {
      DiagonalIsIdentity(n);
      forall t | t in trip ensures 0 <= t.row < n && 0 <= t.col < n {
        assert CoordOf(t) in Finalize(trip);
      }
    }
    I.SetFromTriplets(trip);
    DiagonalIsIdentity(n);
    return Success(I);
  }

  // ---------------------------------------------------------------------------
  // fromList and toList
  // ---------------------------------------------------------------------------

  predicate IsTriple(v: Value) {
    v.Tuple? && |v.items| == 3
  }

  /** The triplet a 3-tuple element of the list stands for. */
  function AsTriplet(v: Value): Triplet
    requires IsTriple(v)
  {
    Triplet(ToInteger(v.items[0]), ToInteger(v.items[1]), ToDouble(v.items[2]))
  }

  predicate WellFormedList(list: seq<Value>) {
    forall v | v in list :: IsTriple(v)
  }

  /** The triplets a list of 3-tuples stands for, in list order. */
  function TripletsOf(list: seq<Value>): (ts: seq<Triplet>)
    requires WellFormedList(list)
    ensures |ts| == |list|
  {
    if list == [] then []
    else
      var init := list[..|list| - 1];
      assert forall v | v in init :: v in list;
      TripletsOf(init) + [AsTriplet(list[|list| - 1])]
  }

  /** `fromList`: an n × m matrix whose value at each position is the sum of the
      list's values for that position; an element that is not a 3-tuple is an error. */
  method FromList(list: seq<Value>, n: int, m: int) returns (r: Result<SparseMat>)
    requires WellFormedList(list) ==> 0 <= n && 0 <= m && TripletsInShape(TripletsOf(list), n, m)
    ensures r.Success? <==> WellFormedList(list)
    ensures r.Failure? ==> r.error == ImproperList
    ensures r.Success? ==>
      && fresh(r.value) && r.value.Valid()
      && r.value.rows == n && r.value.cols == m
      && r.value.entries == Finalize(TripletsOf(list))
      && r.value.entries.Keys == CoordSet(TripletsOf(list))
      && forall k :: Coeff(r.value.entries, k) == SumAt(TripletsOf(list), k)
  {
    var trip: seq<Triplet> := [];
    for e := 0 to |list|
      invariant WellFormedList(list[..e])
      invariant trip == TripletsOf(list[..e])
    {
      var item := list[e];
      if !IsTriple(item) {
        assert item in list;
        return Failure(ImproperList);
      }
      assert list[..e + 1] == list[..e] + [item];
      trip := trip + [AsTriplet(item)];
    }
    assert list[..|list|] == list;
    var A := new SparseMat(n, m);
    A.SetFromTriplets(trip);
    FinalizeSums(trip);
    return Success(A);
  }

  /** The 3-tuple `toList` pushes for one stored entry. */
  function TupleOf(t: Triplet): Value {
    Tuple([Int(t.row), Int(t.col), Float(t.value)])
  }

  function AsTuples(ts: seq<Triplet>): (vs: seq<Value>)
    ensures |vs| == |ts|
  {
    if ts == [] then [] else AsTuples(ts[..|ts| - 1]) + [TupleOf(ts[|ts| - 1])]
  }

  /** Reading back what `toList` writes gives the same triplets. */
  lemma {:induction false} TuplesRoundTrip(ts: seq<Triplet>)
    ensures WellFormedList(AsTuples(ts))
    ensures TripletsOf(AsTuples(ts)) == ts
  {
    if ts != [] {
      var init := ts[..|ts| - 1];
      TuplesRoundTrip(init);
      var vs := AsTuples(ts);
      assert vs == AsTuples(init) + [TupleOf(ts[|ts| - 1])];
      assert vs[..|vs| - 1] == AsTuples(init);
      assert WellFormedList(vs);
      assert AsTriplet(vs[|vs| - 1]) == ts[|ts| - 1];
      assert TripletsOf(vs) == TripletsOf(AsTuples(init)) + [ts[|ts| - 1]];
      assert ts == init + [ts[|ts| - 1]];
    }
  }

  /** `toList`: one (row, col, value) tuple per stored entry, column by column
      and by ascending row inside a column. */
  method ToList(a: Value) returns (r: Result<seq<Value>>)
    ensures !a.Sparse? ==> r == Failure(ToListRequiresSparse)
    ensures a.Sparse? ==> r == Success(AsTuples(ColumnMajor(a.m.entries, a.m.rows, a.m.cols)))
  {
    var A := TopPointer(a);
    if A == null {
      return Failure(ToListRequiresSparse);
    }
    var out: seq<Value> := [];
    for j := 0 to A.cols
      invariant out == AsTuples(ColumnMajor(A.entries, A.rows, j))
    {
      assert ColumnMajor(A.entries, A.rows, j) + ColumnPart(A.entries, j, 0) == ColumnMajor(A.entries, A.rows, j);
      // the entries of column j, in the order Eigen's inner iterator visits them
      for row := 0 to A.rows
        invariant out == AsTuples(ColumnMajor(A.entries, A.rows, j) + ColumnPart(A.entries, j, row))
      {
        if (row, j) in A.entries {
          ghost var before := ColumnMajor(A.entries, A.rows, j) + ColumnPart(A.entries, j, row);
          var t := Triplet(row, j, A.entries[(row, j)]);
          assert ColumnMajor(A.entries, A.rows, j) + ColumnPart(A.entries, j, row + 1) == before + [t];
          assert (before + [t])[..|before|] == before;
          out := out + [TupleOf(t)];
        } else {
          assert ColumnPart(A.entries, j, row + 1) == ColumnPart(A.entries, j, row);
        }
      }
    }
    return Success(out);
  }

  /** `fromList(toList(A), A.rows, A.cols)` rebuilds A. */
  method ListRoundTrip(A: SparseMat) returns (B: SparseMat)
    requires A.Valid()
    ensures B.Contents() == A.Contents()
  {
    var listed := ToList(Sparse(A));
    var listing := ColumnMajor(A.entries, A.rows, A.cols);
    TuplesRoundTrip(listing);
    ListingRoundTrip(A.entries, A.rows, A.cols);
    ColumnMajorFacts(A.entries, A.rows, A.cols);
    var built := FromList(listed.value, A.rows, A.cols);
    B := built.value;
  }

  // ---------------------------------------------------------------------------
  // fromColFn
  // ---------------------------------------------------------------------------

  predicate IsPair(v: Value) {
    v.Tuple? && |v.items| == 2
  }

  predicate ColumnWellFormed(items: seq<Value>) {
    forall v | v in items :: IsPair(v)
  }

  /** The producer's output for every column below c consists of pairs. */
  predicate ColumnsWellFormed(f: int -> seq<Value>, c: int) {
    forall j | 0 <= j < c :: ColumnWellFormed(f(j))
  }

  /** The triplet a (row, value) pair produced for column j stands for. */
  function PairTriplet(v: Value, j: int): Triplet
    requires IsPair(v)
  {
    Triplet(ToInteger(v.items[0]), j, ToDouble(v.items[1]))
  }

  /** The triplets the (row, value) pairs produced for column j stand for. */
  function ColumnTriplets(items: seq<Value>, j: int): (ts: seq<Triplet>)
    requires ColumnWellFormed(items)
    ensures forall t | t in ts :: t.col == j
  {
    if items == [] then []
    else
      var init := items[..|items| - 1];
      var last := items[|items| - 1];
      assert forall v | v in init :: v in items;
      assert last in items;
      ColumnTriplets(init, j) + [PairTriplet(last, j)]
  }

  /** The triplets collected from the columns below c, column after column. */
  function GeneratedTriplets(f: int -> seq<Value>, c: nat): (ts: seq<Triplet>)
    requires ColumnsWellFormed(f, c)
    ensures forall t | t in ts :: 0 <= t.col < c
  {
    if c == 0 then [] else GeneratedTriplets(f, c - 1) + ColumnTriplets(f(c - 1), c - 1)
  }

  /** Column j of the generated matrix is made of what the producer gave for j
      alone. */
  lemma {:induction false} GeneratedColumn(f: int -> seq<Value>, c: nat, row: int, j: int)
    requires ColumnsWellFormed(f, c) && 0 <= j < c
    ensures SumAt(GeneratedTriplets(f, c), (row, j)) == SumAt(ColumnTriplets(f(j), j), (row, j))
  {
    var front, last := GeneratedTriplets(f, c - 1), ColumnTriplets(f(c - 1), c - 1);
    SumAtAppend(front, last, (row, j));
    if j == c - 1 {
      SumAtAbsent(front, (row, j));
    } else {
      GeneratedColumn(f, c - 1, row, j);
      SumAtAbsent(last, (row, j));
    }
  }

  /** `fromColFn`: calls the producer once per column, in increasing order
      (`calls` is the sequence of columns it was called with), and builds an
      n × m matrix from the (row, value) pairs it returns. */
  method FromColFn(f: int -> seq<Value>, n: int, m: int) returns (r: Result<SparseMat>, calls: seq<int>)
    requires 0 <= n <= MaxColFnSize && 0 <= m <= MaxColFnSize && ColumnsWellFormed(f, m) ==>
      TripletsInShape(GeneratedTriplets(f, m), n, m)
    ensures !(0 <= n <= MaxColFnSize && 0 <= m <= MaxColFnSize) ==> r == Failure(InvalidSize(n, m)) && calls == []
    ensures 0 <= n <= MaxColFnSize && 0 <= m <= MaxColFnSize ==> (r.Success? <==> ColumnsWellFormed(f, m))
    ensures calls == seq(|calls|, c => c)
    ensures r.Failure? && 0 <= n <= MaxColFnSize && 0 <= m <= MaxColFnSize ==>
      && r.error == InvalidReturnValue
      && 0 < |calls| <= m
      && ColumnsWellFormed(f, |calls| - 1)
      && !ColumnWellFormed(f(|calls| - 1))
    ensures r.Success? ==>
      && |calls| == m
      && fresh(r.value) && r.value.Valid()
      && r.value.rows == n && r.value.cols == m
      && r.value.entries == Finalize(GeneratedTriplets(f, m))
      && forall row, j | 0 <= j < m :: Coeff(r.value.entries, (row, j)) == SumAt(ColumnTriplets(f(j), j), (row, j))
  {
    if n < 0 || n > MaxColFnSize || m < 0 || m > MaxColFnSize {
      return Failure(InvalidSize(n, m)), [];
    }
    var trip: seq<Triplet> := [];
    calls := [];
    for j := 0 to m
      invariant calls == seq(j, c => c)
      invariant ColumnsWellFormed(f, j)
      invariant trip == GeneratedTriplets(f, j)
    {
      calls := calls + [j];
      var items := f(j);
      for k := 0 to |items|
        invariant ColumnWellFormed(items[..k])
        invariant trip == GeneratedTriplets(f, j) + ColumnTriplets(items[..k], j)
      {
        var item := items[k];
        if !IsPair(item) {
          assert item in f(j);
          return Failure(InvalidReturnValue), calls;
        }
        assert items[..k + 1] == items[..k] + [item];
        trip := trip + [PairTriplet(item, j)];
      }
      assert items[..|items|] == items;
    }
    var A := new SparseMat(n, m);
    A.SetFromTriplets(trip);
    FinalizeSums(trip);
    forall row, j | 0 <= j < m
      ensures Coeff(A.entries, (row, j)) == SumAt(ColumnTriplets(f(j), j), (row, j))
    {
      GeneratedColumn(f, m, row, j);
    }
    return Success(A), calls;
  }

  // ---------------------------------------------------------------------------
  // add, sub, mul
  // ---------------------------------------------------------------------------

  /** `add` (the `sparse_binop` macro with `+`). */
  function Add(a: Value, b: Value): (r: Result<Matrix>)
    reads Objects(a), Objects(b)
    requires a.Sparse? && b.Sparse? ==> a.m.rows == b.m.rows && a.m.cols == b.m.cols
    ensures r.Success? <==> a.Sparse? && b.Sparse?
    ensures r.Failure? ==> r.error == InvalidArguments
    ensures r.Success? ==> r.value == Plus(a.m.Contents(), b.m.Contents())
  {
    var x, y := TopPointer(a), TopPointer(b);
    if x == null || y == null then Failure(InvalidArguments)
    else Success(Plus(x.Contents(), y.Contents()))
  }

  /** `sub` (the `sparse_binop` macro with `-`). */
  function Sub(a: Value, b: Value): (r: Result<Matrix>)
    reads Objects(a), Objects(b)
    requires a.Sparse? && b.Sparse? ==> a.m.rows == b.m.rows && a.m.cols == b.m.cols
    ensures r.Success? <==> a.Sparse? && b.Sparse?
    ensures r.Failure? ==> r.error == InvalidArguments
    ensures r.Success? ==> r.value == Minus(a.m.Contents(), b.m.Contents())
  {
    var x, y := TopPointer(a), TopPointer(b);
    if x == null || y == null then Failure(InvalidArguments)
    else Success(Minus(x.Contents(), y.Contents()))
  }

  /** `mul_slow` as it is meant to work: a number in position 1 scales the
      matrix in position 2 from the left; otherwise the matrix in position 1 is
      scaled from the right by the number in position 2.  A missing matrix is
      a null pointer. */
  function MulSlow(a: Value, b: Value): (r: Result<Matrix>)
    reads Objects(a), Objects(b)
    ensures IsNumber(a) && b.Sparse? ==> r == Success(ScaleLeft(ToDouble(a), b.m.Contents()))
    ensures !IsNumber(a) && a.Sparse? ==> r == Success(ScaleRight(a.m.Contents(), ToDouble(b)))
    ensures r.Success? <==> (if IsNumber(a) then b.Sparse? else a.Sparse?)
    ensures r.Failure? ==> r.error == NullDereference
  {
    if IsNumber(a) then
      var x, y := ToDouble(a), TopPointer(b);
      if y == null then Failure(NullDereference) else Success(ScaleLeft(x, y.Contents()))
    else
      var x, y := TopPointer(a), ToDouble(b);
      if x == null then Failure(NullDereference) else Success(ScaleRight(x.Contents(), y))
  }

  /** `mul_slow` as written: when position 1 does not hold a number, it takes
      the matrix from position 2 and the number from position 1. */
  function MulSlowAsWritten(a: Value, b: Value): (r: Result<Matrix>)
    reads Objects(a), Objects(b)
    ensures IsNumber(a) ==> r == MulSlow(a, b)
    ensures !IsNumber(a) && !b.Sparse? ==> r == Failure(NullDereference)
    ensures !IsNumber(a) && b.Sparse? ==> r == Success(ScaleRight(b.m.Contents(), ToDouble(a)))
  {
    if IsNumber(a) then
      var x, y := ToDouble(a), TopPointer(b);
      if y == null then Failure(NullDereference) else Success(ScaleLeft(x, y.Contents()))
    else
      var x, y := TopPointer(b), ToDouble(a);
      if x == null then Failure(NullDereference) else Success(ScaleRight(x.Contents(), y))
  }

  /** Matrix times number, matrix first: the code as written dereferences a
      null pointer where a scaled matrix is meant. */
  lemma MatrixFirstDereferencesNull(A: SparseMat, y: real)
    ensures MulSlowAsWritten(Sparse(A), Float(y)) == Failure(NullDereference)
    ensures MulSlow(Sparse(A), Float(y)) == Success(ScaleRight(A.Contents(), y))
  {
  }

  /** A first argument that is neither a number nor a matrix converts to 0, so
      the code as written multiplies the matrix in position 2 by 0, where the
      corrected routing finds no matrix in position 1. */
  lemma NonNumberFirstScalesByZero(A: SparseMat)
    ensures MulSlowAsWritten(Other, Sparse(A)) == Success(ScaleRight(A.Contents(), 0.0))
    ensures MulSlow(Other, Sparse(A)) == Failure(NullDereference)
  {
  }

  /** `mul`: two matrices give their element-wise product; otherwise `mul_slow`.
      This dispatch uses the corrected `MulSlow`; `MulAsWritten` is the same
      dispatch over the code as written. */
  function Mul(a: Value, b: Value): (r: Result<Matrix>)
    reads Objects(a), Objects(b)
    requires a.Sparse? && b.Sparse? ==> a.m.rows == b.m.rows && a.m.cols == b.m.cols
    ensures a.Sparse? && b.Sparse? ==> r == Success(CwiseProduct(a.m.Contents(), b.m.Contents()))
    ensures !(a.Sparse? && b.Sparse?) ==> r == MulSlow(a, b)
    ensures r.Success? <==> a.Sparse? || (IsNumber(a) && b.Sparse?)
  {
    if a.Sparse? && b.Sparse? then
      var x, y := TopPointer(a), TopPointer(b);
      if x == null || y == null then Failure(InvalidArguments)
      else Success(CwiseProduct(x.Contents(), y.Contents()))
    else MulSlow(a, b)
  }

  /** `mul` as written: the same dispatch, over `mul_slow` as written.  It
      succeeds exactly when position 2 holds a matrix. */
  function MulAsWritten(a: Value, b: Value): (r: Result<Matrix>)
    reads Objects(a), Objects(b)
    requires a.Sparse? && b.Sparse? ==> a.m.rows == b.m.rows && a.m.cols == b.m.cols
    ensures a.Sparse? && b.Sparse? ==> r == Success(CwiseProduct(a.m.Contents(), b.m.Contents()))
    ensures !(a.Sparse? && b.Sparse?) ==> r == MulSlowAsWritten(a, b)
    ensures r.Success? <==> b.Sparse?
  {
    if a.Sparse? && b.Sparse? then
      var x, y := TopPointer(a), TopPointer(b);
      if x == null || y == null then Failure(InvalidArguments)
      else Success(CwiseProduct(x.Contents(), y.Contents()))
    else MulSlowAsWritten(a, b)
  }
}
