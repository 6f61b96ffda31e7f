/**
 * The order in which `toList` hands the stored entries of a matrix back:
 * column by column, and by ascending row inside a column (the storage order of
 * a column-major sparse matrix).  `ColumnMajor` is that listing as a function;
 * the lemmas say it lists each stored entry exactly once, in that order, and
 * that finalising it gives the matrix back.
 */
module Listing {
  import opened SparseMatrix

  /** The stored entries of column `j` whose row is below `r`, by ascending row. */
  function ColumnPart(entries: map<Coord, real>, j: int, r: nat): seq<Triplet> {
    if r == 0 then []
    else
      ColumnPart(entries, j, r - 1)
      + (if (r - 1, j) in entries then [Triplet(r - 1, j, entries[(r - 1, j)])] else [])
  }

  /** The stored entries of the columns below `c` of a matrix with `rows` rows,
      column after column. */
  function ColumnMajor(entries: map<Coord, real>, rows: nat, c: nat): seq<Triplet> {
    if c == 0 then [] else ColumnMajor(entries, rows, c - 1) + ColumnPart(entries, c - 1, rows)
  }

  /** Column-major order: by column, then by row. */
  predicate Before(s: Triplet, t: Triplet) {
    s.col < t.col || (s.col == t.col && s.row < t.row)
  }

  predicate StrictlyOrdered(ts: seq<Triplet>) {
    forall p, q | 0 <= p < q < |ts| :: Before(ts[p], ts[q])
  }

  /** `t` lists a stored entry: its position is stored, with `t`'s value. */
  predicate Lists(entries: map<Coord, real>, t: Triplet) {
    CoordOf(t) in entries && entries[CoordOf(t)] == t.value
  }

  lemma OrderedConcat(a: seq<Triplet>, b: seq<Triplet>)
    requires StrictlyOrdered(a) && StrictlyOrdered(b)
    requires forall s, t | s in a && t in b :: Before(s, t)
    ensures StrictlyOrdered(a + b)
  {
    forall p, q | 0 <= p < q < |a + b| ensures Before((a + b)[p], (a + b)[q]) {
      if q < |a| {
      } else if p >= |a| {
        assert (a + b)[p] == b[p - |a|] && (a + b)[q] == b[q - |a|];
      } else {
        assert (a + b)[p] in a && (a + b)[q] in b;
      }
    }
  }

  lemma {:induction false} ColumnPartFacts(entries: map<Coord, real>, j: int, r: nat)
    ensures forall t | t in ColumnPart(entries, j, r) :: t.col == j && 0 <= t.row < r && Lists(entries, t)
    ensures forall i | 0 <= i < r && (i, j) in entries :: Triplet(i, j, entries[(i, j)]) in ColumnPart(entries, j, r)
    ensures StrictlyOrdered(ColumnPart(entries, j, r))
  {
    if r > 0 {
      ColumnPartFacts(entries, j, r - 1);
      var front := ColumnPart(entries, j, r - 1);
      var last := if (r - 1, j) in entries then [Triplet(r - 1, j, entries[(r - 1, j)])] else [];
      assert ColumnPart(entries, j, r) == front + last;
      OrderedConcat(front, last);
    }
  }

  lemma {:induction false} ColumnMajorFacts(entries: map<Coord, real>, rows: nat, c: nat)
    ensures forall t | t in ColumnMajor(entries, rows, c) :: 0 <= t.col < c && 0 <= t.row < rows && Lists(entries, t)
    ensures forall k | k in entries && 0 <= k.0 < rows && 0 <= k.1 < c :: Triplet(k.0, k.1, entries[k]) in ColumnMajor(entries, rows, c)
    ensures StrictlyOrdered(ColumnMajor(entries, rows, c))
  {
    if c > 0 {
      ColumnMajorFacts(entries, rows, c - 1);
      ColumnPartFacts(entries, c - 1, rows);
      var front, last := ColumnMajor(entries, rows, c - 1), ColumnPart(entries, c - 1, rows);
      OrderedConcat(front, last);
      forall k | k in entries && 0 <= k.0 < rows && 0 <= k.1 < c
        ensures Triplet(k.0, k.1, entries[k]) in ColumnMajor(entries, rows, c)
      {
        if k.1 < c - 1 {
          assert Triplet(k.0, k.1, entries[k]) in front;
        } else {
          assert Triplet(k.0, k.1, entries[k]) in last;
        }
      }
    }
  }

  /** The full listing of a matrix holds exactly its stored entries, each once,
      in column-major order, so it is as long as the matrix has entries. */
  lemma ListingExact(entries: map<Coord, real>, rows: nat, cols: nat)
    requires InShape(entries, rows, cols)
    ensures forall t :: t in ColumnMajor(entries, rows, cols) <==> Lists(entries, t)
    ensures StrictlyOrdered(ColumnMajor(entries, rows, cols))
    ensures |ColumnMajor(entries, rows, cols)| == |entries|
  {
    var listing := ColumnMajor(entries, rows, cols);
    ColumnMajorFacts(entries, rows, cols);
    forall t | Lists(entries, t) ensures t in listing {
      assert Triplet(t.row, t.col, entries[CoordOf(t)]) == t;
    }
    ListingRoundTrip(entries, rows, cols);
    FinalizeCount(listing);
  }

  lemma OrderedIsDistinct(ts: seq<Triplet>)
    requires StrictlyOrdered(ts)
    ensures DistinctCoords(ts)
  {
    forall p, q | 0 <= p < q < |ts| ensures CoordOf(ts[p]) != CoordOf(ts[q]) {
      assert Before(ts[p], ts[q]);
    }
  }

  /** Finalising the listing of a matrix gives back its stored entries. */
  lemma ListingRoundTrip(entries: map<Coord, real>, rows: nat, cols: nat)
    requires InShape(entries, rows, cols)
    ensures Finalize(ColumnMajor(entries, rows, cols)) == entries
    ensures DistinctCoords(ColumnMajor(entries, rows, cols))
  {
    var listing := ColumnMajor(entries, rows, cols);
    ColumnMajorFacts(entries, rows, cols);
    OrderedIsDistinct(listing);
    FinalizeDistinct(listing);
    var back := Finalize(listing);
    forall k | k in entries ensures k in back && back[k] == entries[k] {
      var t := Triplet(k.0, k.1, entries[k]);
      assert t in listing;
      var p :| 0 <= p < |listing| && listing[p] == t;
      assert CoordOf(t) == k;
    }
    forall k | k in back ensures k in entries {
      var t :| t in listing && CoordOf(t) == k;
    }
    assert back.Keys == entries.Keys;
  }
}
