# Sparse matrix bindings: a Dafny model

This project models `src.cpp` of core.sparse. That file binds a scripting
interpreter to Eigen's `SparseMatrix<double>`. Around Eigen's calls the file
has its own logic, and the model covers all of it:

- index wrap-around and validation (`READ_WRAP`);
- reading one entry (`elem`) and writing one entry in place (`setElem`);
- the builders that collect a triplet vector and finalise it: `eye`,
  `fromList` and `fromColFn`;
- extraction in column-major, row-ascending order (`toList`);
- the operator dispatch of `add`, `sub`, `mul` and `mul_slow`.

Eigen itself is not modelled. Its operations are given only the documented
effect the bindings rely on:

- finalising from triplets sums duplicate coordinates;
- `coeffRef` yields the stored value, inserting an explicit zero when nothing
  is stored;
- `+` and `-` are stored over the union of both operands' entries;
- `cwiseProduct` is stored over the intersection;
- a scalar product keeps the structure and scales every value.

Files:

- `sparse_matrix.dfy`, module `SparseMatrix`: the matrix value `Matrix`, which
  is a shape plus a finite map from (row, column) to `real`. It also holds
  `Finalize` (`setFromTriplets`), the arithmetic operators, and the heap object
  `SparseMat` that `setElem` updates in place.
- `listing.dfy`, module `Listing`: the column-major listing `ColumnMajor`,
  with proofs that it lists every stored entry once, in order, and that
  finalising it gives the matrix back.
- `bindings.dfy`, module `SparseBindings`: the entry points of `src.cpp`.
  Interpreter values are a small sum type (`Int`, `Float`, `Tuple`, `Sparse`,
  `Other`). An error the binding raises is a `Failure` carrying an `Error`.
  The column producer of `fromColFn` is a function from a column index to a
  sequence of values.

In these places the model follows the code:

- `elem` reads through `coeffRef` on a pointer whose `const` was cast away.
  So a read may store an explicit zero, although it changes no position's
  value, so `elem` is not a pure read.
- `add`, `sub` and `mul` do not check dimensions. Eigen asserts equal shapes,
  so equal shapes are a precondition and there is no dimension-mismatch error.
- `fromList` and `fromColFn` do not check triplet coordinates. Eigen asserts
  them, so in-range coordinates (and non-negative `n`, `m` for `fromList`) are
  preconditions, stated only for the inputs on which the binding reaches
  `setFromTriplets`.
- A rejected index is reported with its value after wrap-around, not the
  original value.

## Model

| member | source | states |
|---|---|---|
| `SparseBindings.ReadWrap` | src.cpp:119-123 | An index is accepted exactly when -max <= i < max. An index in [0, max) is unchanged, and one in [-max, -1] becomes i + max. The accepted index lies in [0, max) and is congruent to i modulo max. A rejection names the dimension and reports the wrapped value. |
| `SparseBindings.Locate` | src.cpp:132-133 | Both indices are accepted exactly when each is in range. The row is checked before the column, so a bad row is reported even when the column is also bad. On success the result is the pair of wrapped indices. |
| `SparseBindings.Elem` | src.cpp:126-139 | A non-matrix argument gives InvalidArgument. A bad index gives its error and the matrix keeps its entries. Otherwise the result is the value stored at the wrapped (i, j), or 0 when nothing is stored there. The read may add an explicit zero at (i, j), but no position's value changes. |
| `SparseBindings.SetElem` | src.cpp:143-156 | With no state matrix the result is an error. Both indices are checked before anything is written, and a failed check leaves the entries untouched. After a successful call the wrapped (i, j) holds x, and every other position keeps its value. Shape and validity are kept. |
| `SparseBindings.Eye` | src.cpp:50-70 | A non-integer argument gives EyeRequiresInt. The call succeeds exactly for 0 <= n <= 100000, and otherwise gives EyeInvalidSize. On success the result is a fresh n×n matrix with exactly n stored entries, each (d, d) = 1.0. Every off-diagonal read gives 0. |
| `SparseBindings.DiagonalIsIdentity` | src.cpp:62-66 | Finalising the triplets (d, d, 1.0) for d < n stores 1.0 on the diagonal, nothing else, and exactly n entries. |
| `SparseBindings.FromList` | src.cpp:73-96 | The call succeeds exactly when every list element is a 3-tuple, and fails with ImproperList otherwise. On success the result is a fresh n×m matrix storing exactly the coordinates the list names. The value at each coordinate is the sum of the list's values for it. |
| `SparseMatrix.Finalize` | src.cpp:92 | `setFromTriplets` stores exactly the positions the triplets name. |
| `SparseMatrix.FinalizeSums` | src.cpp:92 | Duplicate coordinates are summed. The value read at any position equals the sum of the triplet values for that position, computed independently front to back. |
| `SparseMatrix.FinalizeDistinct` | src.cpp:92 | When no two triplets share a coordinate, each triplet's value is stored as it is. |
| `SparseMatrix.FinalizeCount` | src.cpp:92 | When no two triplets share a coordinate, there are as many stored entries as triplets. |
| `SparseMatrix.FinalizeInShape` | src.cpp:92 | Triplets inside the shape give stored entries inside the shape. |
| `SparseMatrix.InsertAllIsFinalize` | src.cpp:151 | When no two triplets share a coordinate, writing them one by one into an empty matrix, as `setElem` does, stores the same entries as finalising the triplet list. |
| `SparseBindings.ToList` | src.cpp:99-117 | A non-matrix argument gives ToListRequiresSparse. Otherwise the result is the column-major listing of the stored entries, one (row, col, value) tuple each. |
| `Listing.ListingExact` | src.cpp:105-113 | The listing holds a triplet exactly when that triplet is a stored entry. It is strictly ordered by column and then by row, and it is as long as the number of stored entries. |
| `Listing.ColumnMajorFacts` | src.cpp:105-106 | Every column below c is listed whole, in order, and nothing outside those columns is listed. |
| `Listing.ColumnPartFacts` | src.cpp:106-112 | One column's part of the listing holds its stored entries with row below r, by ascending row. |
| `Listing.ListingRoundTrip` | src.cpp:72-117 | Finalising the listing of a matrix gives back exactly its stored entries, and the listing has no duplicate coordinate. |
| `SparseBindings.TuplesRoundTrip` | src.cpp:107-110 | The tuples `toList` pushes are all 3-tuples, and `fromList` reads the same triplets back from them. |
| `SparseBindings.ListRoundTrip` | src.cpp:72-117 | `fromList(toList(A), A.rows, A.cols)` equals A: same shape and same stored entries. |
| `SparseBindings.FromColFn` | src.cpp:159-189 | Sizes outside [0, 10000000] fail with InvalidSize, and the producer is not called. Otherwise the producer is called once per column in increasing order, columns 0, 1, ..., and the call succeeds exactly when every column's output consists of 2-tuples. A failure is InvalidReturnValue, raised at the first column with a bad item, and no later column is requested. On success the result is a fresh n×m matrix, and column j holds the sum of the (row, value) pairs produced for j. |
| `SparseBindings.GeneratedColumn` | src.cpp:168-181 | In the collected triplets, column j's values come only from what the producer returned for column j. |
| `SparseBindings.Add` | src.cpp:1-14 | Two matrices give their sum. Otherwise the result is InvalidArguments. |
| `SparseBindings.Sub` | src.cpp:1-15 | Two matrices give their difference. Otherwise the result is InvalidArguments. |
| `SparseMatrix.Plus` | src.cpp:14 | The sum is stored over the union of both operands' entries. Every position reads the sum of the operands' values. |
| `SparseMatrix.Minus` | src.cpp:15 | The difference is stored over the union of both operands' entries. Every position reads the difference of the operands' values. |
| `SparseMatrix.MinusIsPlusNegated` | src.cpp:14-15 | a - b equals a + (-1)·b. |
| `SparseMatrix.AdditiveInverse` | src.cpp:14-21 | a + (-1)·a keeps a's structure and stores zero at every stored position. Cancellation is not compacted away. |
| `SparseBindings.Mul` | src.cpp:30-47 | Uses the corrected routing of `mul_slow` (see Findings). Two matrices give their element-wise product. Any other pair goes to the corrected `MulSlow`. The call succeeds exactly when position 1 holds a matrix, or a number followed by a matrix. |
| `SparseBindings.MulAsWritten` | src.cpp:30-47 | The same dispatch over `mul_slow` as written. Two matrices give their element-wise product, and any other pair goes to `MulSlowAsWritten`. The call succeeds exactly when position 2 holds a matrix. |
| `SparseMatrix.CwiseProduct` | src.cpp:43 | The product is stored over the intersection of both operands' entries. Every position reads the product of the operands' values. |
| `SparseMatrix.DisjointProductIsEmpty` | src.cpp:43 | Operands with disjoint structure give a product that stores nothing. |
| `SparseBindings.MulSlow` | src.cpp:17-26 | Corrected routing. A number (type code 5, 6 or 7) in position 1 scales the matrix in position 2 from the left. Otherwise the matrix in position 1 is scaled from the right by the number in position 2. A missing matrix is a null dereference. |
| `SparseBindings.MulSlowAsWritten` | src.cpp:23-25 | As written, when position 1 is not a number the matrix is taken from position 2. A matrix in position 1 with a number in position 2 is therefore a null dereference. |
| `SparseBindings.MatrixFirstDereferencesNull` | src.cpp:23-25 | For every matrix A and number y, the code as written dereferences null on (A, y), while the corrected routing yields A·y. |
| `SparseBindings.NonNumberFirstScalesByZero` | src.cpp:23-25 | For every matrix A, the code as written turns (non-number, A) into A·0, while the corrected routing finds no matrix in position 1 and dereferences null. |
| `SparseMatrix.ScaleLeft` | src.cpp:21 | x·A keeps A's structure and scales every value from the left. |
| `SparseMatrix.ScaleRight` | src.cpp:25 | A·y keeps A's structure and scales every value from the right. |
| `SparseMatrix.ScaleCommutes` | src.cpp:17-26 | The two scalar orders give the same matrix. |
| `SparseMatrix.SparseMat.constructor` | src.cpp:90 | `new SparseMat(n, m)` has shape n×m and stores nothing. |
| `SparseMatrix.SparseMat.SetFromTriplets` | src.cpp:92 | The contents become the finalised triplet list, and the matrix stays within its shape. |
| `SparseMatrix.SparseMat.CoeffRef` | src.cpp:136 | Yields the stored value or 0. An absent position gets an explicit zero, and nothing else changes. |
| `SparseMatrix.SparseMat.SetCoeff` | src.cpp:151 | (i, j) holds x afterwards, inserted if it was absent, and nothing else changes. |

## Findings

| source | as written | input that shows it | evidently intended | confidence | as-written member | corrected member |
|---|---|---|---|---|---|---|
| src.cpp:23-25 | When position 1 is not a number, `mul_slow` reads the matrix from position 2 and the scalar from position 1. | `mul(A, 2.0)` with A a matrix. Position 2 holds a number, `sil_topointer` gives NULL, and `(*x) * y` dereferences it. Conversely, `mul(nil, A)` succeeds with A·0, because the non-number in position 1 converts to 0. | Read the matrix from position 1 and the scalar from position 2. This gives A·2.0 for the first input and a null dereference for the second. | not executed; high, assuming `sil_topointer` yields NULL for a number | `SparseBindings.MulSlowAsWritten` | `SparseBindings.MulSlow` |

## Left out

- Interpreter stack plumbing is not modelled. This covers `sil_settop`,
  `sil_pushSparse`, `sil_unpack`, `sil_behead`, `sil_remove`, `sil_setcons`,
  `sil_getST`, `sil_call` and the error-message formatting. Arguments arrive as
  parameters, results are return values, and errors are `Error` constructors.
- The interpreter's own functions are not part of this model: `sil_type`,
  `sil_tointeger`, `sil_todouble` and `sil_topointer`. The model assumes that:
  - type code 6 is an integer;
  - codes 5 and 7 are other numbers;
  - code 16 is a sparse matrix;
  - a non-number converts to 0;
  - a float converts to an integer by truncation;
  - `sil_topointer` yields NULL for anything but a matrix.
- Index, size and list-length arguments are taken as already converted
  integers. Their conversion from interpreter values, and a non-list passed to
  `fromList`, are not modelled.
- C `int` width is not modelled: indices and sizes are unbounded integers.
  Only `eye` and `fromColFn` check their sizes. `fromList` checks neither `n`,
  `m` nor the triplet coordinates, and the wrap-around of those values
  through C `int` is not modelled.
- Floating-point rounding is not modelled. Values are `real`, so duplicate sums
  and products are exact.
- Eigen's internals are not modelled: compressed-column storage, the sort
  inside `setFromTriplets`, the binary search and the insertion shift of
  `coeffRef`, and the merge kernels. A matrix is a map from coordinates to
  values, so the cost difference between overwriting and inserting is not
  captured.
- ToList: Eigen's inner iterator visits only a column's stored entries. The
  model scans the rows of the column and tests which are stored. The output
  and its order are the same, but not the cost.
- Heap ownership and leaks are not modelled. Builders return a `fresh` object.
  The matrices that `add`, `sub` and `mul` push as `new SparseMat(...)` are
  returned as `Matrix` values.
- Mul: the null check at src.cpp:41 cannot fail in the model. Both operands
  are matrices on that path, so that check cannot fail.
- FromColFn: the producer is a pure function, and its side effects are
  represented only by the recorded sequence of calls. The model does not
  cover a producer that raises an error or returns something other than a
  list.
