/** Lab4/prog.c, the compressed sparse row (CSR) format: `convertToCSR` packs a
    dense rows×cols matrix into row pointers, column indices and values, and the
    packed matrix expands back to the dense one. Elements are mathematical
    integers, so "non-zero" is `!= 0`. */
module SparseCsr {

  import opened Arith

  /** CSRMatrix: row i holds the entries at positions [rowPtr[i], rowPtr[i+1]) of
      colInd and values. */
  datatype CsrMatrix = CsrMatrix(rowPtr: seq<int>, colInd: seq<int>, values: seq<int>, nnz: int, rows: nat, cols: nat)

  /** The shape every reader of a CSR matrix relies on: rows+1 row pointers from 0
      to nnz that never decrease, nnz entries, and columns inside the matrix. */
  ghost predicate WellFormed(a: CsrMatrix) {
    |a.rowPtr| == a.rows + 1 && |a.colInd| == a.nnz && |a.values| == a.nnz &&
    a.rowPtr[0] == 0 && a.rowPtr[a.rows] == a.nnz &&
    (forall i :: 0 <= i < a.rows ==> a.rowPtr[i] <= a.rowPtr[i + 1]) &&
    (forall i :: 0 <= i <= a.rows ==> 0 <= a.rowPtr[i] <= a.nnz) &&
    (forall k :: 0 <= k < a.nnz ==> 0 <= a.colInd[k] < a.cols)
  }

  // ---------------------------------------------------------------------------
  // Row-major offsets of a rows×cols matrix

  /** The offset i*cols + j divides back into row i and column j. */
  lemma RowMajorCell(cols: nat, i: int, j: int)
    requires 0 <= j < cols
    ensures (i * cols + j) / cols == i && (i * cols + j) % cols == j
  {
    DivModUnique(i * cols + j, cols, i, j);
  }

  /** The offset of a cell inside the matrix lies inside the buffer, and the
      rows before row i + 1 end inside it too. */
  lemma RowMajorBound(rows: nat, cols: nat, i: int, j: int)
    requires 0 <= i < rows && 0 <= j < cols
    ensures i * cols + j < (i + 1) * cols <= rows * cols
  {
    MulLe(i + 1, rows, cols);
  }

  /** An offset inside the buffer is the offset of cell (p / cols, p % cols). */
  lemma OffsetRowCol(rows: nat, cols: nat, p: int)
    requires 0 <= p < rows * cols
    ensures cols > 0 && 0 <= p / cols < rows && 0 <= p % cols < cols && p == (p / cols) * cols + p % cols
  {
    if p / cols >= rows {
      MulLe(rows, p / cols, cols);
    }
  }

  // ---------------------------------------------------------------------------
  // The entries convertToCSR packs

  /** The offsets below hi of the non-zero elements of m, in increasing order. */
  function NonZeros(m: seq<int>, hi: nat): (nz: seq<nat>)
    requires hi <= |m|
    ensures |nz| <= hi
    ensures forall k :: 0 <= k < |nz| ==> nz[k] < hi && m[nz[k]] != 0
  {
    if hi == 0 then [] else NonZeros(m, hi - 1) + (if m[hi - 1] != 0 then [hi - 1] else [])
  }

  /** The non-zeros below x are the first ones below any hi >= x. */
  lemma {:induction false} NonZerosPrefix(m: seq<int>, x: nat, hi: nat)
    requires x <= hi <= |m|
    ensures |NonZeros(m, x)| <= |NonZeros(m, hi)|
    ensures NonZeros(m, x) == NonZeros(m, hi)[..|NonZeros(m, x)|]
  {
    if x < hi {
      NonZerosPrefix(m, x, hi - 1);
    }
  }

  /** Position k of the non-zeros below hi comes before position |NonZeros(m, x)|
      exactly when its offset lies below x. */
  lemma {:induction false} NonZerosSplit(m: seq<int>, x: nat, hi: nat, k: int)
    requires x <= hi <= |m| && 0 <= k < |NonZeros(m, hi)|
    ensures k < |NonZeros(m, x)| <==> NonZeros(m, hi)[k] < x
  {
    if x < hi {
      if k < |NonZeros(m, hi - 1)| {
        NonZerosSplit(m, x, hi - 1, k);
      } else {
        NonZerosPrefix(m, x, hi - 1);
      }
    }
  }

  /** The non-zero offsets are strictly increasing. */
  lemma {:induction false} NonZerosIncreasing(m: seq<int>, hi: nat)
    requires hi <= |m|
    ensures forall k, k' :: 0 <= k < k' < |NonZeros(m, hi)| ==> NonZeros(m, hi)[k] < NonZeros(m, hi)[k']
  {
    if hi > 0 {
      NonZerosIncreasing(m, hi - 1);
    }
  }

  /** A non-zero element at offset x is entry number |NonZeros(m, x)|. */
  lemma NonZerosAt(m: seq<int>, x: nat, hi: nat)
    requires x < hi <= |m| && m[x] != 0
    ensures |NonZeros(m, x + 1)| == |NonZeros(m, x)| + 1 <= |NonZeros(m, hi)|
    ensures NonZeros(m, hi)[|NonZeros(m, x)|] == x
  {
    NonZerosPrefix(m, x + 1, hi);
    assert NonZeros(m, x + 1)[|NonZeros(m, x)|] == x;
  }

  /** The number of non-zeros in the rows before row i. */
  function RowStart(m: seq<int>, rows: nat, cols: nat, i: int): nat
    requires |m| == rows * cols && 0 <= i <= rows
  {
    MulLe(i, rows, cols);
    |NonZeros(m, i * cols)|
  }

  /** The CSR form of the dense rows×cols matrix m: row i starts after the
      non-zeros of the rows before it, and entry k is the k-th non-zero element in
      row-major order, with its column and its value. */
  function CsrOf(m: seq<int>, rows: nat, cols: nat): (a: CsrMatrix)
    requires |m| == rows * cols
    ensures a.rows == rows && a.cols == cols && a.nnz == |NonZeros(m, rows * cols)|
  {
    var nz := NonZeros(m, rows * cols);
    CsrMatrix(seq(rows + 1, i requires 0 <= i <= rows => RowStart(m, rows, cols, i)),
              seq(|nz|, k requires 0 <= k < |nz| => nz[k] % cols),
              seq(|nz|, k requires 0 <= k < |nz| => m[nz[k]]),
              |nz|, rows, cols)
  }

  /** The first count entries of colInd and values hold, in order, the column and
      the value of the first count non-zero elements of m, in row-major order. */
  ghost predicate PackedUpTo(m: seq<int>, cols: nat, colInd: seq<int>, values: seq<int>, count: nat) {
    count <= |NonZeros(m, |m|)| && count <= |colInd| && count <= |values| &&
    forall k :: 0 <= k < count ==>
      cols > 0 && colInd[k] == NonZeros(m, |m|)[k] % cols && values[k] == m[NonZeros(m, |m|)[k]]
  }

  /** Packing the non-zero element at offset x as entry count extends the packed
      prefix by one entry. */
  lemma PackedUpToStep(m: seq<int>, cols: nat, colInd: seq<int>, values: seq<int>, count: nat, x: int)
    requires PackedUpTo(m, cols, colInd, values, count)
    requires 0 <= x < |m| && m[x] != 0 && count == |NonZeros(m, x)| && cols > 0
    requires count < |colInd| && count < |values|
    ensures PackedUpTo(m, cols, colInd[count := x % cols], values[count := m[x]], count + 1)
  {
    NonZerosAt(m, x, |m|);
  }

  /** The j loop of convertToCSR's second pass over row i, whose elements start at
      offset s = i*cols: the non-zeros of the row are appended after the start
      entries already packed. */
  method PackRow(matrix: array<int>, cols: nat, i: nat, s: nat, colInd: array<int>, values: array<int>, start: nat)
    returns (count: nat)
    requires s == i * cols && s + cols <= matrix.Length
    requires colInd != matrix && values != matrix && colInd != values
    requires colInd.Length == values.Length == |NonZeros(matrix[..], matrix.Length)|
    requires start == |NonZeros(matrix[..], s)|
    requires PackedUpTo(matrix[..], cols, colInd[..], values[..], start)
    modifies colInd, values
    ensures count == |NonZeros(matrix[..], s + cols)|
    ensures PackedUpTo(matrix[..], cols, colInd[..], values[..], count)
  {
    ghost var m := matrix[..];
    count := start;
    for j := 0 to cols
      invariant count == |NonZeros(m, s + j)|
      invariant PackedUpTo(m, cols, colInd[..], values[..], count)
    {
      var val := matrix[s + j];
      if val != 0 {
        NonZerosAt(m, s + j, |m|);
        RowMajorCell(cols, i, j);
        PackedUpToStep(m, cols, colInd[..], values[..], count, s + j);
        values[count] := val;
        colInd[count] := j;
        count := count + 1;
      } else {
        assert NonZeros(m, s + j + 1) == NonZeros(m, s + j);
      }
    }
  }

  /** convertToCSR: a first pass counts the non-zeros, a second fills the row
      pointers, column indices and values with a running count. */
  method ConvertToCsr(matrix: array<int>, rows: nat, cols: nat) returns (csr: CsrMatrix)
    requires matrix.Length == rows * cols
    ensures csr == CsrOf(matrix[..], rows, cols)
  {
    ghost var m := matrix[..];
    var rowPtr := new int[rows + 1];
    var nnz := 0;
    for p := 0 to rows * cols
      invariant nnz == |NonZeros(m, p)|
    {
      if matrix[p] != 0 {
        nnz := nnz + 1;
      }
    }
    var colInd := new int[nnz];
    var values := new int[nnz];
    var count := 0;
    for i := 0 to rows
      invariant count == RowStart(m, rows, cols, i)
      invariant forall i' :: 0 <= i' < i ==> rowPtr[i'] == RowStart(m, rows, cols, i')
      invariant PackedUpTo(m, cols, colInd[..], values[..], count)
    {
      rowPtr[i] := count;
      RowStartNext(m, rows, cols, i);
      count := PackRow(matrix, cols, i, i * cols, colInd, values, count);
    }
    rowPtr[rows] := count;
    csr := CsrMatrix(rowPtr[..], colInd[..], values[..], nnz, rows, cols);
  }

  /** The CSR form is well formed, with rowPtr[rows] equal to the number of
      non-zero elements. */
  lemma CsrOfWellFormed(m: seq<int>, rows: nat, cols: nat)
    requires |m| == rows * cols
    ensures WellFormed(CsrOf(m, rows, cols))
    ensures CsrOf(m, rows, cols).rowPtr[rows] == |NonZeros(m, rows * cols)|
  {
    var a := CsrOf(m, rows, cols);
    forall i | 0 <= i <= rows
      ensures 0 <= a.rowPtr[i] <= a.nnz
    {
      MulLe(i, rows, cols);
      NonZerosPrefix(m, i * cols, rows * cols);
    }
    forall i | 0 <= i < rows
      ensures a.rowPtr[i] <= a.rowPtr[i + 1]
    {
      MulLe(i, i + 1, cols);
      MulLe(i + 1, rows, cols);
      NonZerosPrefix(m, i * cols, (i + 1) * cols);
    }
  }

  /** Entry k of row i is a non-zero offset of row i. */
  lemma NonZeroInRow(m: seq<int>, rows: nat, cols: nat, i: int, k: int)
    requires |m| == rows * cols && 0 <= i < rows
    requires RowStart(m, rows, cols, i) <= k < RowStart(m, rows, cols, i + 1)
    ensures k < |NonZeros(m, rows * cols)|
    ensures i * cols <= NonZeros(m, rows * cols)[k] < i * cols + cols
    ensures NonZeros(m, rows * cols)[k] % cols == NonZeros(m, rows * cols)[k] - i * cols
  {
    MulLe(i + 1, rows, cols);
    assert (i + 1) * cols == i * cols + cols;
    NonZerosPrefix(m, (i + 1) * cols, rows * cols);
    var nz := NonZeros(m, rows * cols);
    NonZerosSplit(m, i * cols, rows * cols, k);
    NonZerosSplit(m, (i + 1) * cols, rows * cols, k);
    DivModUnique(nz[k], cols, i, nz[k] - i * cols);
  }

  /** Within row i of the CSR form a of m, entry k holds the element of column
      colInd[k], which is not zero, and the columns strictly increase along the
      row. */
  lemma CsrOfRows(m: seq<int>, rows: nat, cols: nat, a: CsrMatrix, i: int, k: int)
    requires |m| == rows * cols && a == CsrOf(m, rows, cols) && WellFormed(a)
    requires 0 <= i < rows && a.rowPtr[i] <= k < a.rowPtr[i + 1]
    ensures 0 <= a.colInd[k] < cols
    ensures i * cols + a.colInd[k] < rows * cols && a.values[k] == m[i * cols + a.colInd[k]] != 0
    ensures forall k' :: k < k' < a.rowPtr[i + 1] ==> a.colInd[k] < a.colInd[k']
  {
    NonZeroInRow(m, rows, cols, i, k);
    NonZerosIncreasing(m, rows * cols);
    forall k' | k < k' < a.rowPtr[i + 1]
      ensures a.colInd[k] < a.colInd[k']
    {
      NonZeroInRow(m, rows, cols, i, k');
    }
  }

  // ---------------------------------------------------------------------------
  // Expanding a CSR matrix back to dense form

  /** The sum of the values at positions [lo, hi) whose column is c. */
  function RowSum(colInd: seq<int>, values: seq<int>, lo: int, hi: int, c: int): int
    requires 0 <= lo <= hi <= |colInd| && hi <= |values|
    decreases hi - lo
  {
    if hi == lo then 0 else RowSum(colInd, values, lo, hi - 1, c) + (if colInd[hi - 1] == c then values[hi - 1] else 0)
  }

  /** Element (i, j) of the matrix a stores: the values of row i in column j. */
  function Entry(a: CsrMatrix, i: int, j: int): int
    requires WellFormed(a) && 0 <= i < a.rows
  {
    RowSum(a.colInd, a.values, a.rowPtr[i], a.rowPtr[i + 1], j)
  }

  /** The element at row-major offset p of the dense form of a. */
  function ExpandedAt(a: CsrMatrix, p: int): int
    requires WellFormed(a) && 0 <= p < a.rows * a.cols
  {
    OffsetRowCol(a.rows, a.cols, p);
    Entry(a, p / a.cols, p % a.cols)
  }

  /** The dense row-major form of a. */
  function Expand(a: CsrMatrix): (m: seq<int>)
    requires WellFormed(a)
    ensures |m| == a.rows * a.cols
  {
    seq(a.rows * a.cols, p requires 0 <= p < a.rows * a.cols => ExpandedAt(a, p))
  }

  /** Element (i, j) of the dense form is Entry(a, i, j). */
  lemma ExpandCell(a: CsrMatrix, i: int, j: int)
    requires WellFormed(a) && 0 <= i < a.rows && 0 <= j < a.cols
    ensures i * a.cols + j < a.rows * a.cols && Expand(a)[i * a.cols + j] == Entry(a, i, j)
  {
    RowMajorBound(a.rows, a.cols, i, j);
    RowMajorCell(a.cols, i, j);
  }

  /** Entries that hold, in order, the column and the value of each non-zero
      element of the matrix m with cols columns: the column indices and values of
      the CSR form of m. */
  ghost predicate PacksNonZeros(m: seq<int>, cols: nat, colInd: seq<int>, values: seq<int>) {
    |colInd| == |NonZeros(m, |m|)| && |values| == |NonZeros(m, |m|)| && cols > 0 &&
    PackedUpTo(m, cols, colInd, values, |colInd|)
  }

  /** The column indices and values of the CSR form of m pack its non-zeros. */
  lemma CsrOfPacks(m: seq<int>, rows: nat, cols: nat)
    requires |m| == rows * cols && cols > 0
    ensures PacksNonZeros(m, cols, CsrOf(m, rows, cols).colInd, CsrOf(m, rows, cols).values)
  {
  }

  /** Over the entries of the row that starts at offset s = i*cols, up to column
      j', the packed non-zeros add up to the dense element in each column below j'
      and to 0 elsewhere. */
  lemma {:induction false} RowSumPrefix(m: seq<int>, cols: nat, colInd: seq<int>, values: seq<int>,
                                        i: int, s: int, j': int, c: int)
    requires PacksNonZeros(m, cols, colInd, values)
    requires 0 <= s == i * cols && s + cols <= |m| && 0 <= j' <= cols
    ensures |NonZeros(m, s)| <= |NonZeros(m, s + j')| <= |colInd|
    ensures RowSum(colInd, values, |NonZeros(m, s)|, |NonZeros(m, s + j')|, c) == if 0 <= c < j' then m[s + c] else 0
  {
    NonZerosPrefix(m, s, s + j');
    NonZerosPrefix(m, s + j', |m|);
    if j' > 0 {
      RowSumPrefix(m, cols, colInd, values, i, s, j' - 1, c);
      RowSumStep(m, cols, colInd, values, i, s, s + j' - 1, |NonZeros(m, s)|, c);
    }
  }

  /** One offset x of the row that starts at s = i*cols: the entry packed for
      m[x], if there is one, adds m[x] to column x - s and nothing to the others. */
  lemma RowSumStep(m: seq<int>, cols: nat, colInd: seq<int>, values: seq<int>,
                   i: int, s: int, x: int, base: nat, c: int)
    requires PacksNonZeros(m, cols, colInd, values)
    requires 0 <= s == i * cols && s <= x < s + cols && x < |m| && base <= |NonZeros(m, x)|
    ensures |NonZeros(m, x + 1)| <= |colInd|
    ensures RowSum(colInd, values, base, |NonZeros(m, x + 1)|, c)
         == RowSum(colInd, values, base, |NonZeros(m, x)|, c) + (if c == x - s && m[x] != 0 then m[x] else 0)
  {
    NonZerosPrefix(m, x + 1, |m|);
    var lo := |NonZeros(m, x)|;
    if m[x] != 0 {
      NonZerosAt(m, x, |m|);
      RowMajorCell(cols, i, x - s);
      assert colInd[lo] == x - s && values[lo] == m[x];
    } else {
      assert NonZeros(m, x + 1) == NonZeros(m, x);
    }
  }

  /** The rows before row i + 1 end cols offsets after those before row i. */
  lemma RowStartNext(m: seq<int>, rows: nat, cols: nat, i: int)
    requires |m| == rows * cols && 0 <= i < rows
    ensures i * cols + cols <= rows * cols
    ensures RowStart(m, rows, cols, i) == |NonZeros(m, i * cols)|
    ensures RowStart(m, rows, cols, i + 1) == |NonZeros(m, i * cols + cols)|
  {
    MulLe(i + 1, rows, cols);
    assert (i + 1) * cols == i * cols + cols;
  }

  /** Element p of the expanded CSR form of m is element p of m. */
  lemma RoundTripCell(m: seq<int>, rows: nat, cols: nat, a: CsrMatrix, p: int)
    requires |m| == rows * cols && a == CsrOf(m, rows, cols) && WellFormed(a) && 0 <= p < rows * cols
    ensures Expand(a)[p] == m[p]
  {
    OffsetRowCol(rows, cols, p);
    var i, j := p / cols, p % cols;
    var s := i * cols;
    RowStartNext(m, rows, cols, i);
    CsrOfPacks(m, rows, cols);
    RowSumPrefix(m, cols, a.colInd, a.values, i, s, cols, j);
    assert Expand(a)[p] == Entry(a, i, j);
  }

  /** Expanding the CSR form of m gives m back: convertToCSR loses nothing. */
  lemma CsrRoundTrip(m: seq<int>, rows: nat, cols: nat)
    requires |m| == rows * cols
    ensures WellFormed(CsrOf(m, rows, cols))
    ensures Expand(CsrOf(m, rows, cols)) == m
  {
    var a := CsrOf(m, rows, cols);
    CsrOfWellFormed(m, rows, cols);
    forall p | 0 <= p < rows * cols
      ensures Expand(a)[p] == m[p]
    {
      RoundTripCell(m, rows, cols, a, p);
    }
  }
}
