/** Assignment1/C/matrix_mult_single.cpp: six single-threaded loop orders for C = A·B
    over `Matrix`, the benchmark helpers that clear C before every run, and the
    comparison of every pattern's result with pattern 1's. Over integers each pattern
    is proved to leave the product in C, so every comparison reports a match. */
module SinglePatterns {

  import opened Arith
  import opened Dense
  import opened Matrices

  const UNROLL_FACTOR: nat := 8
  const UNROLL_I: nat := 2
  const UNROLL_J: nat := 4
  const DEFAULT_BLOCK_SIZE: nat := 64

  /** Three n×n matrices, C stored apart from A and B. */
  predicate Compatible(A: Matrix, B: Matrix, C: Matrix) {
    A.Valid() && B.Valid() && C.Valid() && A.size == B.size == C.size && C.data != A.data && C.data != B.data
  }

  /** The innermost loop of patterns 1 and 3: the dot product of row i of A and
      column j of B, accumulated over k in increasing order. */
  method RowColumnDot(A: Matrix, B: Matrix, i: nat, j: nat) returns (sum: int)
    requires A.Valid() && B.Valid() && A.size == B.size && i < A.size && j < A.size
    ensures sum == Dot(A.Elements(), B.Elements(), A.size, i, j, A.size)
  {
    ghost var a, b := A.Elements(), B.Elements();
    var n := A.size;
    sum := 0;
    for k := 0 to n
      invariant sum == Dot(a, b, n, i, j, k)
    {
      DotStep(A, B, a, b, i, j, k);
      sum := sum + A.data[i, k] * B.data[k, j];
    }
  }

  /** pattern1_ijk: rows, then columns, then the dot product, stored with `=`, so C
      needs no clearing. */
  method Pattern1Ijk(A: Matrix, B: Matrix, C: Matrix)
    requires Compatible(A, B, C)
    modifies C.data
    ensures IsProduct(C.Elements(), A.Elements(), B.Elements(), C.size)
  {
    var n := A.size;
    ghost var a, b := A.Elements(), B.Elements();
    for i := 0 to n
      invariant forall i', j' :: 0 <= i' < i && 0 <= j' < n ==> C.data[i', j'] == Dot(a, b, n, i', j', n)
    {
      for j := 0 to n
        invariant forall i', j' :: 0 <= i' < i && 0 <= j' < n ==> C.data[i', j'] == Dot(a, b, n, i', j', n)
        invariant forall j' :: 0 <= j' < j ==> C.data[i, j'] == Dot(a, b, n, i, j', n)
      {
        var sum := RowColumnDot(A, B, i, j);
        C.data[i, j] := sum;
      }
    }
    ProductOf(C, a, b);
  }

  /** pattern3_jik: pattern 1 with the two outer loops swapped, after a clear. */
  method Pattern3Jik(A: Matrix, B: Matrix, C: Matrix)
    requires Compatible(A, B, C)
    modifies C.data
    ensures IsProduct(C.Elements(), A.Elements(), B.Elements(), C.size)
  {
    var n := A.size;
    ghost var a, b := A.Elements(), B.Elements();
    C.Clear();
    for j := 0 to n
      invariant forall i', j' :: 0 <= i' < n && 0 <= j' < j ==> C.data[i', j'] == Dot(a, b, n, i', j', n)
    {
      for i := 0 to n
        invariant forall i', j' :: 0 <= i' < n && 0 <= j' < j ==> C.data[i', j'] == Dot(a, b, n, i', j', n)
        invariant forall i' :: 0 <= i' < i ==> C.data[i', j] == Dot(a, b, n, i', j, n)
      {
        var sum := RowColumnDot(A, B, i, j);
        C.data[i, j] := sum;
      }
    }
    ProductOf(C, a, b);
  }

  /** The innermost loop of patterns 2 and 4: C(i, j) += A(i, k) * B(k, j) for the
      columns j of [lo, hi); no other element changes. */
  method AccumulateSpan(A: Matrix, B: Matrix, C: Matrix, i: nat, k: nat, lo: nat, hi: nat)
    requires Compatible(A, B, C) && i < C.size && k < C.size && lo <= hi <= C.size
    modifies C.data
    ensures forall j :: lo <= j < hi ==> C.data[i, j] == old(C.data[i, j]) + A.data[i, k] * B.data[k, j]
    ensures forall i', j :: 0 <= i' < C.size && 0 <= j < C.size && (i' != i || j < lo || hi <= j) ==>
      C.data[i', j] == old(C.data[i', j])
  {
    var aik := A.data[i, k];
    for j := lo to hi
      invariant forall j' :: lo <= j' < j ==> C.data[i, j'] == old(C.data[i, j']) + aik * B.data[k, j']
      invariant forall i', j' :: 0 <= i' < C.size && 0 <= j' < C.size && (i' != i || j' < lo || j <= j') ==>
        C.data[i', j'] == old(C.data[i', j'])
    {
      C.data[i, j] := C.data[i, j] + aik * B.data[k, j];
    }
  }

  /** pattern2_ikj: after a clear, row i of C gains A(i, k) times row k of B, for
      every k in turn. */
  method Pattern2Ikj(A: Matrix, B: Matrix, C: Matrix)
    requires Compatible(A, B, C)
    modifies C.data
    ensures IsProduct(C.Elements(), A.Elements(), B.Elements(), C.size)
  {
    var n := A.size;
    ghost var a, b := A.Elements(), B.Elements();
    C.Clear();
    for i := 0 to n
      invariant forall i', j' :: 0 <= i' < n && 0 <= j' < n ==> C.data[i', j'] == Dot(a, b, n, i', j', if i' < i then n else 0)
    {
      for k := 0 to n
        invariant forall i', j' :: 0 <= i' < n && 0 <= j' < n ==>
          C.data[i', j'] == Dot(a, b, n, i', j', if i' < i then n else if i' == i then k else 0)
      {
        label before:
        AccumulateSpan(A, B, C, i, k, 0, n);
        forall i', j' | 0 <= i' < n && 0 <= j' < n
          ensures C.data[i', j'] == Dot(a, b, n, i', j', if i' < i then n else if i' == i then k + 1 else 0)
        {
          assert old@before(C.data[i', j']) == Dot(a, b, n, i', j', if i' < i then n else if i' == i then k else 0);
          if i' == i {
            DotStep(A, B, a, b, i, j', k);
          }
        }
      }
    }
    ProductOf(C, a, b);
  }

  /** One pass of the unrolled loop of pattern5_simd: the eight columns [j, j + 8)
      of row i gain A(i, k) times their element of row k of B; no other element
      changes. */
  method AccumulateEight(A: Matrix, B: Matrix, C: Matrix, i: nat, k: nat, j: nat)
    requires Compatible(A, B, C) && i < C.size && k < C.size && j + UNROLL_FACTOR <= C.size
    modifies C.data
    ensures forall j' :: j <= j' < j + UNROLL_FACTOR ==> C.data[i, j'] == old(C.data[i, j']) + A.data[i, k] * B.data[k, j']
    ensures forall i', j' :: 0 <= i' < C.size && 0 <= j' < C.size && (i' != i || j' < j || j + UNROLL_FACTOR <= j') ==>
      C.data[i', j'] == old(C.data[i', j'])
  {
    var aik := A.data[i, k];
    C.data[i, j] := C.data[i, j] + aik * B.data[k, j];
    C.data[i, j + 1] := C.data[i, j + 1] + aik * B.data[k, j + 1];
    C.data[i, j + 2] := C.data[i, j + 2] + aik * B.data[k, j + 2];
    C.data[i, j + 3] := C.data[i, j + 3] + aik * B.data[k, j + 3];
    C.data[i, j + 4] := C.data[i, j + 4] + aik * B.data[k, j + 4];
    C.data[i, j + 5] := C.data[i, j + 5] + aik * B.data[k, j + 5];
    C.data[i, j + 6] := C.data[i, j + 6] + aik * B.data[k, j + 6];
    C.data[i, j + 7] := C.data[i, j + 7] + aik * B.data[k, j + 7];
    forall j' | j <= j' < j + UNROLL_FACTOR
      ensures C.data[i, j'] == old(C.data[i, j']) + aik * B.data[k, j']
    {
      var c := j' - j;
      assert c == 0 || c == 1 || c == 2 || c == 3 || c == 4 || c == 5 || c == 6 || c == 7;
    }
  }

  /** The body of pattern5_simd for one (i, k): the columns are taken eight at a
      time while eight remain, then one at a time. Each column j of row i gains
      A(i, k) * B(k, j) once; no other element changes. */
  method AccumulateRowUnrolled(A: Matrix, B: Matrix, C: Matrix, i: nat, k: nat)
    requires Compatible(A, B, C) && i < C.size && k < C.size
    modifies C.data
    ensures forall j :: 0 <= j < C.size ==> C.data[i, j] == old(C.data[i, j]) + A.data[i, k] * B.data[k, j]
    ensures forall i', j :: 0 <= i' < C.size && 0 <= j < C.size && i' != i ==> C.data[i', j] == old(C.data[i', j])
  {
    var n := C.size;
    var aik := A.data[i, k];
    var j := 0;
    while j <= n - UNROLL_FACTOR
      invariant 0 <= j <= n
      invariant forall j' :: 0 <= j' < j ==> C.data[i, j'] == old(C.data[i, j']) + aik * B.data[k, j']
      invariant forall i', j' :: 0 <= i' < n && 0 <= j' < n && (i' != i || j <= j') ==> C.data[i', j'] == old(C.data[i', j'])
    {
      AccumulateEight(A, B, C, i, k, j);
      j := j + UNROLL_FACTOR;
    }
    while j < n
      invariant 0 <= j <= n
      invariant forall j' :: 0 <= j' < j ==> C.data[i, j'] == old(C.data[i, j']) + aik * B.data[k, j']
      invariant forall i', j' :: 0 <= i' < n && 0 <= j' < n && (i' != i || j <= j') ==> C.data[i', j'] == old(C.data[i', j'])
    {
      C.data[i, j] := C.data[i, j] + aik * B.data[k, j];
      j := j + 1;
    }
  }

  /** pattern5_simd: pattern 2 with the column loop unrolled eight times. */
  method Pattern5Simd(A: Matrix, B: Matrix, C: Matrix)
    requires Compatible(A, B, C)
    modifies C.data
    ensures IsProduct(C.Elements(), A.Elements(), B.Elements(), C.size)
  {
    var n := A.size;
    ghost var a, b := A.Elements(), B.Elements();
    C.Clear();
    for i := 0 to n
      invariant forall i', j' :: 0 <= i' < n && 0 <= j' < n ==> C.data[i', j'] == Dot(a, b, n, i', j', if i' < i then n else 0)
    {
      for k := 0 to n
        invariant forall i', j' :: 0 <= i' < n && 0 <= j' < n ==>
          C.data[i', j'] == Dot(a, b, n, i', j', if i' < i then n else if i' == i then k else 0)
      {
        label before:
        AccumulateRowUnrolled(A, B, C, i, k);
        forall i', j' | 0 <= i' < n && 0 <= j' < n
          ensures C.data[i', j'] == Dot(a, b, n, i', j', if i' < i then n else if i' == i then k + 1 else 0)
        {
          assert old@before(C.data[i', j']) == Dot(a, b, n, i', j', if i' < i then n else if i' == i then k else 0);
          if i' == i {
            DotStep(A, B, a, b, i, j', k);
          }
        }
      }
    }
    ProductOf(C, a, b);
  }

  /** One row of a block of pattern4_blocked: for k in [kk, kEnd), the columns
      [jj, jEnd) of row i gain A(i, k) times row k of B. The block's columns of row
      i then hold their dot products up to kEnd; no other element changes. */
  method AccumulateBlockRow(A: Matrix, B: Matrix, C: Matrix, ghost a: seq<int>, ghost b: seq<int>,
                            i: nat, jj: nat, jEnd: nat, kk: nat, kEnd: nat)
    requires Compatible(A, B, C) && a == A.Elements() && b == B.Elements()
    requires i < C.size && jj <= jEnd <= C.size && kk <= kEnd <= C.size
    requires forall j :: jj <= j < jEnd ==> C.data[i, j] == Dot(a, b, C.size, i, j, kk)
    modifies C.data
    ensures forall j :: jj <= j < jEnd ==> C.data[i, j] == Dot(a, b, C.size, i, j, kEnd)
    ensures forall i', j :: 0 <= i' < C.size && 0 <= j < C.size && (i' != i || j < jj || jEnd <= j) ==>
      C.data[i', j] == old(C.data[i', j])
  {
    var n := C.size;
    for k := kk to kEnd
      invariant forall j :: jj <= j < jEnd ==> C.data[i, j] == Dot(a, b, n, i, j, k)
      invariant forall i', j :: 0 <= i' < n && 0 <= j < n && (i' != i || j < jj || jEnd <= j) ==>
        C.data[i', j] == old(C.data[i', j])
    {
      label before:
      AccumulateSpan(A, B, C, i, k, jj, jEnd);
      forall j | jj <= j < jEnd
        ensures C.data[i, j] == Dot(a, b, n, i, j, k + 1)
      {
        assert old@before(C.data[i, j]) == Dot(a, b, n, i, j, k);
        DotStep(A, B, a, b, i, j, k);
      }
    }
  }

  /** The body of pattern4_blocked for one block (ii, jj, kk): the elements of rows
      [ii, iEnd) and columns [jj, jEnd) move from their dot products up to kk to
      their dot products up to kEnd; no other element changes. */
  method AccumulateBlock(A: Matrix, B: Matrix, C: Matrix, ghost a: seq<int>, ghost b: seq<int>,
                         ii: nat, iEnd: nat, jj: nat, jEnd: nat, kk: nat, kEnd: nat)
    requires Compatible(A, B, C) && a == A.Elements() && b == B.Elements()
    requires ii <= iEnd <= C.size && jj <= jEnd <= C.size && kk <= kEnd <= C.size
    requires forall i, j :: ii <= i < iEnd && jj <= j < jEnd ==> C.data[i, j] == Dot(a, b, C.size, i, j, kk)
    modifies C.data
    ensures forall i, j :: ii <= i < iEnd && jj <= j < jEnd ==> C.data[i, j] == Dot(a, b, C.size, i, j, kEnd)
    ensures forall i, j :: 0 <= i < C.size && 0 <= j < C.size && !(ii <= i < iEnd && jj <= j < jEnd) ==>
      C.data[i, j] == old(C.data[i, j])
  {
    var n := C.size;
    for i := ii to iEnd
      invariant forall i', j :: ii <= i' < i && jj <= j < jEnd ==> C.data[i', j] == Dot(a, b, n, i', j, kEnd)
      invariant forall i', j :: 0 <= i' < n && 0 <= j < n && !(ii <= i' < i && jj <= j < jEnd) ==>
        C.data[i', j] == old(C.data[i', j])
    {
      label before:
      AccumulateBlockRow(A, B, C, a, b, i, jj, jEnd, kk, kEnd);
      forall i', j | 0 <= i' < n && 0 <= j < n && i' != i
        ensures C.data[i', j] == old@before(C.data[i', j])
      {
      }
    }
  }

  /** The kk loop of pattern4_blocked for the block of rows [ii, iEnd) and columns
      [jj, jEnd): k runs in blocks of bs, the last cut off at n. The block's
      elements go from 0 to their full dot products; no other element changes. */
  method BlockedTile(A: Matrix, B: Matrix, C: Matrix, ghost a: seq<int>, ghost b: seq<int>,
                     bs: nat, ii: nat, iEnd: nat, jj: nat, jEnd: nat)
    requires Compatible(A, B, C) && a == A.Elements() && b == B.Elements()
    requires bs >= 1 && ii <= iEnd <= C.size && jj <= jEnd <= C.size
    requires forall i, j :: ii <= i < iEnd && jj <= j < jEnd ==> C.data[i, j] == 0
    modifies C.data
    ensures forall i, j :: ii <= i < iEnd && jj <= j < jEnd ==> C.data[i, j] == Dot(a, b, C.size, i, j, C.size)
    ensures forall i, j :: 0 <= i < C.size && 0 <= j < C.size && !(ii <= i < iEnd && jj <= j < jEnd) ==>
      C.data[i, j] == old(C.data[i, j])
  {
    var n := C.size;
    var kk := 0;
    while kk < n
      invariant 0 <= kk
      invariant forall i, j :: ii <= i < iEnd && jj <= j < jEnd ==> C.data[i, j] == Dot(a, b, n, i, j, Min(kk, n))
      invariant forall i, j :: 0 <= i < n && 0 <= j < n && !(ii <= i < iEnd && jj <= j < jEnd) ==>
        C.data[i, j] == old(C.data[i, j])
      decreases n - kk
    {
      var kEnd := Min(kk + bs, n);
      AccumulateBlock(A, B, C, a, b, ii, iEnd, jj, jEnd, kk, kEnd);
      kk := kk + bs;
    }
  }

  /** The jj loop of pattern4_blocked for the block row [ii, iEnd): the columns are
      taken in blocks of bs, the last cut off at n. The rows' elements go from 0 to
      their full dot products; no other element changes. */
  method BlockedRow(A: Matrix, B: Matrix, C: Matrix, ghost a: seq<int>, ghost b: seq<int>, bs: nat, ii: nat, iEnd: nat)
    requires Compatible(A, B, C) && a == A.Elements() && b == B.Elements()
    requires bs >= 1 && ii <= iEnd <= C.size
    requires forall i, j :: ii <= i < iEnd && 0 <= j < C.size ==> C.data[i, j] == 0
    modifies C.data
    ensures forall i, j :: ii <= i < iEnd && 0 <= j < C.size ==> C.data[i, j] == Dot(a, b, C.size, i, j, C.size)
    ensures forall i, j :: 0 <= i < C.size && 0 <= j < C.size && !(ii <= i < iEnd) ==> C.data[i, j] == old(C.data[i, j])
  {
    var n := C.size;
    var jj := 0;
    while jj < n
      invariant 0 <= jj
      invariant forall i, j :: ii <= i < iEnd && 0 <= j < n && j < jj ==> C.data[i, j] == Dot(a, b, n, i, j, n)
      invariant forall i, j :: ii <= i < iEnd && jj <= j < n ==> C.data[i, j] == 0
      invariant forall i, j :: 0 <= i < n && 0 <= j < n && !(ii <= i < iEnd) ==> C.data[i, j] == old(C.data[i, j])
      decreases n - jj
    {
      var jEnd := Min(jj + bs, n);
      BlockedTile(A, B, C, a, b, bs, ii, iEnd, jj, jEnd);
      jj := jj + bs;
    }
  }

  /** pattern4_blocked: after a clear, the block size is cut down to n and the i,
      j and k ranges are walked in blocks of that size, the last block of each
      range cut off at n. The block size must be at least 1 (64 by default, 16 to
      256 in the benchmark). */
  method Pattern4Blocked(A: Matrix, B: Matrix, C: Matrix, blockSize: int)
    requires Compatible(A, B, C) && blockSize >= 1
    modifies C.data
    ensures IsProduct(C.Elements(), A.Elements(), B.Elements(), C.size)
  {
    var n := A.size;
    ghost var a, b := A.Elements(), B.Elements();
    C.Clear();
    var bs := Min(blockSize, n);
    var ii := 0;
    while ii < n
      invariant 0 <= ii
      invariant forall i, j :: 0 <= i < n && 0 <= j < n && i < ii ==> C.data[i, j] == Dot(a, b, n, i, j, n)
      invariant forall i, j :: ii <= i < n && 0 <= j < n ==> C.data[i, j] == 0
      decreases n - ii
    {
      var iEnd := Min(ii + bs, n);
      BlockedRow(A, B, C, a, b, bs, ii, iEnd);
      ii := ii + bs;
    }
    ProductOf(C, a, b);
  }

  /** The four accumulators of row i of a register block at column j hold the dot
      products up to k of the elements of that row that lie inside the matrix. */
  ghost predicate RowAccumulators(a: seq<int>, b: seq<int>, n: nat, i: nat, j: nat, k: nat,
                                  acc0: int, acc1: int, acc2: int, acc3: int)
    requires |a| == n * n && |b| == n * n && i < n && j < n && k <= n
  {
    && acc0 == Dot(a, b, n, i, j, k)
    && (j + 1 < n ==> acc1 == Dot(a, b, n, i, j + 1, k))
    && (j + 2 < n ==> acc2 == Dot(a, b, n, i, j + 2, k))
    && (j + 3 < n ==> acc3 == Dot(a, b, n, i, j + 3, k))
  }

  /** Step k of one row of a register block: each accumulator gains A(i, k) times
      its element of row k of B, read as 0 past column n - 1. */
  lemma RowAccumulatorsStep(A: Matrix, B: Matrix, a: seq<int>, b: seq<int>, i: nat, j: nat, k: nat,
                            acc0: int, acc1: int, acc2: int, acc3: int, aik: int, b0: int, b1: int, b2: int, b3: int)
    requires A.Valid() && B.Valid() && A.size == B.size && a == A.Elements() && b == B.Elements()
    requires i < A.size && j < A.size && k < A.size
    requires RowAccumulators(a, b, A.size, i, j, k, acc0, acc1, acc2, acc3)
    requires aik == A.data[i, k] && b0 == B.data[k, j]
    requires b1 == (if j + 1 < A.size then B.data[k, j + 1] else 0)
    requires b2 == (if j + 2 < A.size then B.data[k, j + 2] else 0)
    requires b3 == (if j + 3 < A.size then B.data[k, j + 3] else 0)
    ensures RowAccumulators(a, b, A.size, i, j, k + 1, acc0 + aik * b0, acc1 + aik * b1, acc2 + aik * b2, acc3 + aik * b3)
  {
    DotStep(A, B, a, b, i, j, k);
    if j + 1 < A.size {
      DotStep(A, B, a, b, i, j + 1, k);
    }
    if j + 2 < A.size {
      DotStep(A, B, a, b, i, j + 2, k);
    }
    if j + 3 < A.size {
      DotStep(A, B, a, b, i, j + 3, k);
    }
  }

  /** Step k of the k loop of a register block at (i, j): A(i, k), A(i + 1, k) and
      B(k, j .. j + 3) are read, rows and columns past n as 0, and the accumulators
      of the rows inside the matrix gain their products. */
  method RegisterStep(A: Matrix, B: Matrix, ghost a: seq<int>, ghost b: seq<int>, i: nat, j: nat, k: nat,
                      acc00: int, acc01: int, acc02: int, acc03: int, acc10: int, acc11: int, acc12: int, acc13: int)
    returns (acc00': int, acc01': int, acc02': int, acc03': int, acc10': int, acc11': int, acc12': int, acc13': int)
    requires A.Valid() && B.Valid() && A.size == B.size && a == A.Elements() && b == B.Elements()
    requires i < A.size && j < A.size && k < A.size
    requires RowAccumulators(a, b, A.size, i, j, k, acc00, acc01, acc02, acc03)
    requires i + 1 < A.size ==> RowAccumulators(a, b, A.size, i + 1, j, k, acc10, acc11, acc12, acc13)
    ensures RowAccumulators(a, b, A.size, i, j, k + 1, acc00', acc01', acc02', acc03')
    ensures i + 1 < A.size ==> RowAccumulators(a, b, A.size, i + 1, j, k + 1, acc10', acc11', acc12', acc13')
  {
    var n := A.size;
    acc00', acc01', acc02', acc03' := acc00, acc01, acc02, acc03;
    acc10', acc11', acc12', acc13' := acc10, acc11, acc12, acc13;
    var a0k := if i < n then A.data[i, k] else 0;
    var a1k := if i + 1 < n then A.data[i + 1, k] else 0;
    var b0 := B.data[k, j];
    var b1 := if j + 1 < n then B.data[k, j + 1] else 0;
    var b2 := if j + 2 < n then B.data[k, j + 2] else 0;
    var b3 := if j + 3 < n then B.data[k, j + 3] else 0;
    if i < n {
      RowAccumulatorsStep(A, B, a, b, i, j, k, acc00, acc01, acc02, acc03, a0k, b0, b1, b2, b3);
      acc00', acc01', acc02', acc03' := acc00 + a0k * b0, acc01 + a0k * b1, acc02 + a0k * b2, acc03 + a0k * b3;
    }
    if i + 1 < n {
      RowAccumulatorsStep(A, B, a, b, i + 1, j, k, acc10, acc11, acc12, acc13, a1k, b0, b1, b2, b3);
      acc10', acc11', acc12', acc13' := acc10 + a1k * b0, acc11 + a1k * b1, acc12 + a1k * b2, acc13 + a1k * b3;
    }
  }

  /** The k loop of one 2×4 register block of pattern6_register_blocking at (i, j):
      eight accumulators start at 0 and sum over k. Every accumulator of an element
      inside the matrix ends with that element's dot product. */
  method RegisterAccumulate(A: Matrix, B: Matrix, ghost a: seq<int>, ghost b: seq<int>, i: nat, j: nat)
    returns (acc00: int, acc01: int, acc02: int, acc03: int, acc10: int, acc11: int, acc12: int, acc13: int)
    requires A.Valid() && B.Valid() && A.size == B.size && a == A.Elements() && b == B.Elements()
    requires i < A.size && j < A.size
    ensures RowAccumulators(a, b, A.size, i, j, A.size, acc00, acc01, acc02, acc03)
    ensures i + 1 < A.size ==> RowAccumulators(a, b, A.size, i + 1, j, A.size, acc10, acc11, acc12, acc13)
  {
    var n := A.size;
    acc00, acc01, acc02, acc03 := 0, 0, 0, 0;
    acc10, acc11, acc12, acc13 := 0, 0, 0, 0;
    for k := 0 to n
      invariant RowAccumulators(a, b, n, i, j, k, acc00, acc01, acc02, acc03)
      invariant i + 1 < n ==> RowAccumulators(a, b, n, i + 1, j, k, acc10, acc11, acc12, acc13)
    {
      acc00, acc01, acc02, acc03, acc10, acc11, acc12, acc13 :=
        RegisterStep(A, B, a, b, i, j, k, acc00, acc01, acc02, acc03, acc10, acc11, acc12, acc13);
    }
  }

  /** The stores of one row of a register block: C(i, j) = v0, and C(i, j + c) = vc
      for the columns c = 1, 2, 3 that lie inside the matrix; no other element
      changes. */
  method StoreBlockRow(C: Matrix, i: nat, j: nat, v0: int, v1: int, v2: int, v3: int)
    requires C.Valid() && i < C.size && j < C.size
    modifies C.data
    ensures C.data[i, j] == v0
    ensures j + 1 < C.size ==> C.data[i, j + 1] == v1
    ensures j + 2 < C.size ==> C.data[i, j + 2] == v2
    ensures j + 3 < C.size ==> C.data[i, j + 3] == v3
    ensures forall i', j' :: 0 <= i' < C.size && 0 <= j' < C.size && (i' != i || j' < j || j + UNROLL_J <= j') ==>
      C.data[i', j'] == old(C.data[i', j'])
  {
    var n := C.size;
    C.data[i, j] := v0;
    if j + 1 < n {
      C.data[i, j + 1] := v1;
    }
    if j + 2 < n {
      C.data[i, j + 2] := v2;
    }
    if j + 3 < n {
      C.data[i, j + 3] := v3;
    }
  }

  /** One 2×4 register block of pattern6_register_blocking at (i, j): the
      accumulators are stored into the elements that lie inside the matrix, which
      then hold their dot products; no other element changes. */
  method RegisterBlock(A: Matrix, B: Matrix, C: Matrix, ghost a: seq<int>, ghost b: seq<int>, i: nat, j: nat)
    requires Compatible(A, B, C) && a == A.Elements() && b == B.Elements()
    requires i < C.size && j < C.size
    modifies C.data
    ensures forall i', j' :: i <= i' < i + UNROLL_I && j <= j' < j + UNROLL_J && i' < C.size && j' < C.size ==>
      C.data[i', j'] == Dot(a, b, C.size, i', j', C.size)
    ensures forall i', j' :: 0 <= i' < C.size && 0 <= j' < C.size && !(i <= i' < i + UNROLL_I && j <= j' < j + UNROLL_J) ==>
      C.data[i', j'] == old(C.data[i', j'])
  {
    var n := C.size;
    var acc00, acc01, acc02, acc03, acc10, acc11, acc12, acc13 := RegisterAccumulate(A, B, a, b, i, j);
    if i < n {
      StoreBlockRow(C, i, j, acc00, acc01, acc02, acc03);
    }
    label firstRow:
    if i + 1 < n {
      StoreBlockRow(C, i + 1, j, acc10, acc11, acc12, acc13);
    }
    forall j' | j <= j' < j + UNROLL_J && j' < n
      ensures C.data[i, j'] == Dot(a, b, n, i, j', n)
    {
      assert C.data[i, j'] == old@firstRow(C.data[i, j']);
    }
  }

  /** pattern6_register_blocking: after a clear, C is computed in 2×4 blocks, rows
      in steps of 2 and columns in steps of 4, the last blocks cut off at n. */
  method Pattern6RegisterBlocking(A: Matrix, B: Matrix, C: Matrix)
    requires Compatible(A, B, C)
    modifies C.data
    ensures IsProduct(C.Elements(), A.Elements(), B.Elements(), C.size)
  {
    var n := A.size;
    ghost var a, b := A.Elements(), B.Elements();
    C.Clear();
    var i := 0;
    while i < n
      invariant 0 <= i
      invariant forall i', j' :: 0 <= i' < n && 0 <= j' < n && i' < i ==> C.data[i', j'] == Dot(a, b, n, i', j', n)
      decreases n - i
    {
      var j := 0;
      while j < n
        invariant 0 <= j
        invariant forall i', j' :: 0 <= i' < n && 0 <= j' < n && (i' < i || (i' < i + UNROLL_I && j' < j)) ==>
          C.data[i', j'] == Dot(a, b, n, i', j', n)
        decreases n - j
      {
        label before:
        RegisterBlock(A, B, C, a, b, i, j);
        forall i', j' | 0 <= i' < n && 0 <= j' < n && (i' < i || (i' < i + UNROLL_I && j' < j))
          ensures C.data[i', j'] == Dot(a, b, n, i', j', n)
        {
          assert old@before(C.data[i', j']) == Dot(a, b, n, i', j', n);
        }
        j := j + UNROLL_J;
      }
      i := i + UNROLL_I;
    }
    ProductOf(C, a, b);
  }

  /** The patterns measure_time is handed. */
  datatype Pattern = Ijk | Ikj | Jik | Simd | RegisterBlocking

  /** One call of the pattern function measure_time was given. */
  method RunPattern(p: Pattern, A: Matrix, B: Matrix, C: Matrix)
    requires Compatible(A, B, C)
    modifies C.data
    ensures IsProduct(C.Elements(), A.Elements(), B.Elements(), C.size)
  {
    match p
    case Ijk => Pattern1Ijk(A, B, C);
    case Ikj => Pattern2Ikj(A, B, C);
    case Jik => Pattern3Jik(A, B, C);
    case Simd => Pattern5Simd(A, B, C);
    case RegisterBlocking => Pattern6RegisterBlocking(A, B, C);
  }

  /** measure_time: each of the runs clears C and then runs the pattern, so C holds
      the product after any positive number of runs. The clock readings and the
      minimum time are not modelled. */
  method MeasureTime(p: Pattern, A: Matrix, B: Matrix, C: Matrix, runs: int)
    requires Compatible(A, B, C)
    modifies C.data
    ensures runs >= 1 ==> IsProduct(C.Elements(), A.Elements(), B.Elements(), C.size)
  {
    var run := 0;
    while run < runs
      invariant run >= 1 ==> IsProduct(C.Elements(), A.Elements(), B.Elements(), C.size)
    {
      C.Clear();
      RunPattern(p, A, B, C);
      run := run + 1;
    }
  }

  /** measure_time_blocked: measure_time for pattern4_blocked with a block size. */
  method MeasureTimeBlocked(A: Matrix, B: Matrix, C: Matrix, blockSize: int, runs: int)
    requires Compatible(A, B, C) && blockSize >= 1
    modifies C.data
    ensures runs >= 1 ==> IsProduct(C.Elements(), A.Elements(), B.Elements(), C.size)
  {
    var run := 0;
    while run < runs
      invariant run >= 1 ==> IsProduct(C.Elements(), A.Elements(), B.Elements(), C.size)
    {
      C.Clear();
      Pattern4Blocked(A, B, C, blockSize);
      run := run + 1;
    }
  }

  /** The block sizes the benchmark tries, each only when it does not exceed n. */
  const BLOCK_SIZES: seq<int> := [16, 32, 64, 128, 256]

  /** The benchmark runs every measurement twice. */
  const RUNS: int := 2

  /** The tolerance of equals: over integers the results agree exactly, so any
      tolerance that is not negative accepts them. */
  const TOLERANCE: int := 0

  /** How many of the sizes do not exceed n. */
  function CountAtMost(sizes: seq<int>, n: int): (c: nat)
    ensures c <= |sizes|
  {
    if sizes == [] then 0 else (if sizes[0] <= n then 1 else 0) + CountAtMost(sizes[1..], n)
  }

  /** The comparison main prints after a pattern has run into cTest: equals with
      the reference result. */
  method Compare(cTest: Matrix, cRef: Matrix, ghost a: seq<int>, ghost b: seq<int>) returns (ok: bool)
    requires cTest.Valid() && cRef.Valid() && cTest.size == cRef.size
    requires |a| == cRef.size * cRef.size && |b| == cRef.size * cRef.size
    requires IsProduct(cTest.Elements(), a, b, cRef.size) && IsProduct(cRef.Elements(), a, b, cRef.size)
    ensures ok
  {
    ProductUnique(cTest.Elements(), cRef.Elements(), a, b, cRef.size);
    SameElementsWithin(cTest, cRef, TOLERANCE);
    ok := cTest.Equals(cRef, TOLERANCE);
  }

  /** The block-size sweep of main: pattern4_blocked runs with every block size
      that does not exceed n and each result is compared with the reference. */
  method CompareBlocked(A: Matrix, B: Matrix, cRef: Matrix, cTest: Matrix, ghost a: seq<int>, ghost b: seq<int>)
    returns (verdicts: seq<bool>)
    requires Compatible(A, B, cTest) && cRef.Valid() && cRef.size == A.size && cRef.data != cTest.data
    requires a == A.Elements() && b == B.Elements() && IsProduct(cRef.Elements(), a, b, A.size)
    modifies cTest.data
    ensures |verdicts| == CountAtMost(BLOCK_SIZES, A.size)
    ensures forall k :: 0 <= k < |verdicts| ==> verdicts[k]
  {
    var n := A.size;
    verdicts := [];
    for s := 0 to |BLOCK_SIZES|
      invariant |verdicts| == CountAtMost(BLOCK_SIZES[..s], n)
      invariant forall k :: 0 <= k < |verdicts| ==> verdicts[k]
    {
      assert BLOCK_SIZES[..s + 1] == BLOCK_SIZES[..s] + [BLOCK_SIZES[s]];
      CountAtMostSnoc(BLOCK_SIZES[..s], BLOCK_SIZES[s], n);
      var blockSize := BLOCK_SIZES[s];
      if blockSize <= n {
        MeasureTimeBlocked(A, B, cTest, blockSize, RUNS);
        var ok := Compare(cTest, cRef, a, b);
        verdicts := verdicts + [ok];
      }
    }
    assert BLOCK_SIZES[..|BLOCK_SIZES|] == BLOCK_SIZES;
  }

  /** The body of main for one matrix size: pattern 1 computes the reference
      result, then patterns 2 and 3, pattern 4 with every block size that fits, and
      patterns 5 and 6 each run into a test matrix that is compared with the
      reference. The verdicts come in the order they are printed, and every one of
      them reports a match. */
  method CompareWithReference(A: Matrix, B: Matrix) returns (verdicts: seq<bool>)
    requires A.Valid() && B.Valid() && A.size == B.size
    ensures |verdicts| == 4 + CountAtMost(BLOCK_SIZES, A.size)
    ensures forall k :: 0 <= k < |verdicts| ==> verdicts[k]
  {
    var n := A.size;
    ghost var a, b := A.Elements(), B.Elements();
    var cRef := new Matrix(n);
    var cTest := new Matrix(n);
    cRef.Clear();
    MeasureTime(Ijk, A, B, cRef, RUNS);
    MeasureTime(Ikj, A, B, cTest, RUNS);
    var ok := Compare(cTest, cRef, a, b);
    verdicts := [ok];
    MeasureTime(Jik, A, B, cTest, RUNS);
    ok := Compare(cTest, cRef, a, b);
    verdicts := verdicts + [ok];
    var blocked := CompareBlocked(A, B, cRef, cTest, a, b);
    verdicts := verdicts + blocked;
    MeasureTime(Simd, A, B, cTest, RUNS);
    ok := Compare(cTest, cRef, a, b);
    verdicts := verdicts + [ok];
    MeasureTime(RegisterBlocking, A, B, cTest, RUNS);
    ok := Compare(cTest, cRef, a, b);
    verdicts := verdicts + [ok];
  }

  /** Counting the sizes of a list that grows at the end. */
  lemma {:induction false} CountAtMostSnoc(sizes: seq<int>, x: int, n: int)
    ensures CountAtMost(sizes + [x], n) == CountAtMost(sizes, n) + (if x <= n then 1 else 0)
  {
    if sizes != [] {
      assert (sizes + [x])[1..] == sizes[1..] + [x];
      CountAtMostSnoc(sizes[1..], x, n);
    }
  }
}
