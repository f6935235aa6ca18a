/** Lab4/prog.c, the row kernel every scheduler calls: `compute_row(r)` adds row r
    of A·B into the dense result C, reading A and B in CSR form, and
    `reset_result` clears C between runs. The row stride of C is the global N, so
    both operands are N×N. Elements are mathematical integers. */
module SparseRows {

  import opened Dense
  import opened SparseCsr

  /** Matrix dimension: every operand is N×N. */
  const N: nat := 4096

  /** The operands compute_row reads and writes: two well-formed N×N CSR matrices
      and a dense N×N result. */
  ghost predicate Operands(A: CsrMatrix, B: CsrMatrix, C: array<int>) {
    WellFormed(A) && WellFormed(B) &&
    A.rows == N && A.cols == N && B.rows == N && B.cols == N && C.Length == N * N
  }

  // ---------------------------------------------------------------------------
  // One row of a CSR matrix, weighted by a column

  /** Column j of the matrix b stores, as a sequence over the rows. */
  function Column(b: CsrMatrix, j: int): (col: seq<int>)
    requires WellFormed(b)
    ensures |col| == b.rows
  {
    seq(b.rows, q requires 0 <= q < b.rows => Entry(b, q, j))
  }

  /** The entries at positions [lo, hi), each value weighted by the element of col
      at its column: the order compute_row adds the products in. */
  function WeightedEntries(colInd: seq<int>, values: seq<int>, lo: int, hi: int, col: seq<int>): int
    requires 0 <= lo <= hi <= |colInd| && hi <= |values|
    requires forall k :: lo <= k < hi ==> 0 <= colInd[k] < |col|
    decreases hi - lo
  {
    if hi == lo then 0 else WeightedEntries(colInd, values, lo, hi - 1, col) + values[hi - 1] * col[colInd[hi - 1]]
  }

  /** The dense row that the entries [lo, hi) stand for, weighted column by column
      by col over the columns below m: the order a dot product adds them in. */
  function WeightedColumns(colInd: seq<int>, values: seq<int>, lo: int, hi: int, col: seq<int>, m: int): int
    requires 0 <= lo <= hi <= |colInd| && hi <= |values| && 0 <= m <= |col|
  {
    if m == 0 then 0 else WeightedColumns(colInd, values, lo, hi, col, m - 1) + RowSum(colInd, values, lo, hi, m - 1) * col[m - 1]
  }

  /** No entries stand for the zero row. */
  lemma {:induction false} WeightedColumnsEmpty(colInd: seq<int>, values: seq<int>, lo: int, col: seq<int>, m: int)
    requires 0 <= lo <= |colInd| && lo <= |values| && 0 <= m <= |col|
    ensures WeightedColumns(colInd, values, lo, lo, col, m) == 0
  {
    if m > 0 {
      WeightedColumnsEmpty(colInd, values, lo, col, m - 1);
    }
  }

  /** Entry hi - 1 adds its value times col at its column, if that column is
      below m, and nothing else. */
  lemma {:induction false} WeightedColumnsStep(colInd: seq<int>, values: seq<int>, lo: int, hi: int, col: seq<int>, m: int)
    requires 0 <= lo < hi <= |colInd| && hi <= |values| && 0 <= m <= |col|
    ensures WeightedColumns(colInd, values, lo, hi, col, m)
         == WeightedColumns(colInd, values, lo, hi - 1, col, m)
            + (if 0 <= colInd[hi - 1] < m then values[hi - 1] * col[colInd[hi - 1]] else 0)
  {
    if m > 0 {
      WeightedColumnsStep(colInd, values, lo, hi, col, m - 1);
      var x, y := RowSum(colInd, values, lo, hi - 1, m - 1), if colInd[hi - 1] == m - 1 then values[hi - 1] else 0;
      assert (x + y) * col[m - 1] == x * col[m - 1] + y * col[m - 1];
    }
  }

  /** Adding the entries one by one, as compute_row does, gives the same sum as
      adding the dense row column by column, as the dot product does. */
  lemma {:induction false} WeightedSwap(colInd: seq<int>, values: seq<int>, lo: int, hi: int, col: seq<int>)
    requires 0 <= lo <= hi <= |colInd| && hi <= |values|
    requires forall k :: lo <= k < hi ==> 0 <= colInd[k] < |col|
    ensures WeightedEntries(colInd, values, lo, hi, col) == WeightedColumns(colInd, values, lo, hi, col, |col|)
    decreases hi - lo
  {
    if hi == lo {
      WeightedColumnsEmpty(colInd, values, lo, col, |col|);
    } else {
      WeightedSwap(colInd, values, lo, hi - 1, col);
      WeightedColumnsStep(colInd, values, lo, hi, col, |col|);
    }
  }

  /** The dot product of row i of the dense form of a with column j of the dense
      form of b, up to m, weights row i of a column by column. */
  lemma {:induction false} DotAsColumns(a: CsrMatrix, b: CsrMatrix, n: nat, i: int, j: int, m: int)
    requires WellFormed(a) && WellFormed(b) && a.rows == n && a.cols == n && b.rows == n && b.cols == n
    requires 0 <= i < n && 0 <= j < n && 0 <= m <= n
    ensures Dot(Expand(a), Expand(b), n, i, j, m)
         == WeightedColumns(a.colInd, a.values, a.rowPtr[i], a.rowPtr[i + 1], Column(b, j), m)
  {
    if m > 0 {
      DotAsColumns(a, b, n, i, j, m - 1);
      ExpandCell(a, i, m - 1);
      ExpandCell(b, m - 1, j);
    }
  }

  /** What compute_row adds for row i and column j is element (i, j) of the
      product of the dense forms of a and b. */
  lemma RowProduct(a: CsrMatrix, b: CsrMatrix, n: nat, i: int, j: int)
    requires WellFormed(a) && WellFormed(b) && a.rows == n && a.cols == n && b.rows == n && b.cols == n
    requires 0 <= i < n && 0 <= j < n
    ensures forall k :: a.rowPtr[i] <= k < a.rowPtr[i + 1] ==> 0 <= a.colInd[k] < |Column(b, j)|
    ensures WeightedEntries(a.colInd, a.values, a.rowPtr[i], a.rowPtr[i + 1], Column(b, j))
         == Dot(Expand(a), Expand(b), n, i, j, n)
  {
    WeightedSwap(a.colInd, a.values, a.rowPtr[i], a.rowPtr[i + 1], Column(b, j));
    DotAsColumns(a, b, n, i, j, n);
  }

  // ---------------------------------------------------------------------------
  // The kernel

  /** reset_result: the first size elements of C become 0; the rest are left as
      they were. */
  method ResetResult(C: array<int>, size: nat)
    requires size <= C.Length
    modifies C
    ensures forall p :: 0 <= p < C.Length ==> C[p] == if p < size then 0 else old(C[p])
  {
    for i := 0 to size
      invariant forall p :: 0 <= p < C.Length ==> C[p] == if p < i then 0 else old(C[p])
    {
      C[i] := 0;
    }
  }

  /** The k loop of compute_row: row r of C gains aVal times row q of B, column by
      column; the other rows are left as they were. */
  method AddScaledRow(B: CsrMatrix, C: array<int>, r: int, q: int, aVal: int)
    requires WellFormed(B) && B.cols == N && C.Length == N * N && 0 <= r < N && 0 <= q < B.rows
    modifies C
    ensures forall p :: 0 <= p < N * N ==>
      C[p] == if Row(N, p) == r then old(C[p]) + aVal * Entry(B, q, Col(N, p)) else old(C[p])
  {
    for k := B.rowPtr[q] to B.rowPtr[q + 1]
      invariant forall p :: 0 <= p < N * N ==>
        C[p] == if Row(N, p) == r then old(C[p]) + aVal * RowSum(B.colInd, B.values, B.rowPtr[q], k, Col(N, p)) else old(C[p])
    {
      var colB := B.colInd[k];
      var valB := B.values[k];
      RowColIdx(N, r, colB);
      C[Idx(N, r, colB)] := C[Idx(N, r, colB)] + aVal * valB;
    }
  }

  /** compute_row: row r of C gains row r of the product of the dense forms of A
      and B; the other rows are left as they were. */
  method ComputeRow(r: int, A: CsrMatrix, B: CsrMatrix, C: array<int>)
    requires Operands(A, B, C) && 0 <= r < N
    modifies C
    ensures forall p :: 0 <= p < N * N ==>
      C[p] == if Row(N, p) == r then old(C[p]) + DotAt(Expand(A), Expand(B), N, p, N) else old(C[p])
  {
    for j := A.rowPtr[r] to A.rowPtr[r + 1]
      invariant forall p :: 0 <= p < N * N ==>
        C[p] == if Row(N, p) == r
                then old(C[p]) + WeightedEntries(A.colInd, A.values, A.rowPtr[r], j, Column(B, Col(N, p)))
                else old(C[p])
    {
      AddScaledRow(B, C, r, A.colInd[j], A.values[j]);
    }
    forall p | 0 <= p < N * N && Row(N, p) == r
      ensures C[p] == old(C[p]) + DotAt(Expand(A), Expand(B), N, p, N)
    {
      RowProduct(A, B, N, r, Col(N, p));
    }
  }

  /** The CSR forms of two N×N matrices multiply to the product of the matrices:
      a result that holds the product of the expanded CSR forms holds the product
      of the dense inputs convertToCSR was given. */
  lemma CsrProduct(c: seq<int>, mA: seq<int>, mB: seq<int>, A: CsrMatrix, B: CsrMatrix)
    requires |mA| == N * N && |mB| == N * N && A == CsrOf(mA, N, N) && B == CsrOf(mB, N, N)
    requires WellFormed(A) && WellFormed(B) && IsProduct(c, Expand(A), Expand(B), N)
    ensures IsProduct(c, mA, mB, N)
  {
    CsrRoundTrip(mA, N, N);
    CsrRoundTrip(mB, N, N);
  }
}
