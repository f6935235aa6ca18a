/** Assignment1/D/matmul.cpp, the buffer utilities around the pthread kernels:
    every matrix is an N×N row-major buffer of N*N elements, cut out of the
    leading corner of one MAXN×MAXN master matrix. Elements are mathematical
    integers. */
module MatmulBuffers {

  import opened Arith
  import opened Dense

  /** Side of the master matrix every operand is cut from. */
  const MAXN: nat := 2048

  /** The leading n×n corner of the MAXN×MAXN master buffer, stored n×n. */
  function Submatrix(master: seq<int>, n: nat): (s: seq<int>)
    requires |master| == MAXN * MAXN && n <= MAXN
    ensures |s| == n * n
  {
    seq(n * n, p requires 0 <= p < n * n => master[Idx(MAXN, Row(n, p), Col(n, p))])
  }

  /** Cell (i, j) of the submatrix is cell (i, j) of the master. */
  lemma SubmatrixCell(master: seq<int>, n: nat, i: int, j: int)
    requires |master| == MAXN * MAXN && n <= MAXN && 0 <= i < n && 0 <= j < n
    ensures Submatrix(master, n)[Idx(n, i, j)] == master[Idx(MAXN, i, j)]
  {
    RowColIdx(n, i, j);
  }

  /** One memcpy of extract_submatrix: row i of the master's leading columns
      becomes row i of dst; the other rows are left as they were. */
  method CopyRow(dst: array<int>, master: array<int>, n: nat, i: nat)
    requires master.Length == MAXN * MAXN && n <= MAXN && dst.Length == n * n && i < n
    requires dst != master
    modifies dst
    ensures forall p :: 0 <= p < n * n ==>
      dst[p] == if Row(n, p) == i then master[Idx(MAXN, i, Col(n, p))] else old(dst[p])
  {
    for j := 0 to n
      invariant forall p :: 0 <= p < n * n ==>
        dst[p] == if Row(n, p) == i && Col(n, p) < j then master[Idx(MAXN, i, Col(n, p))] else old(dst[p])
    {
      RowColIdx(n, i, j);
      dst[Idx(n, i, j)] := master[Idx(MAXN, i, j)];
    }
  }

  /** extract_submatrix: dst becomes the leading n×n corner of the master. */
  method ExtractSubmatrix(dst: array<int>, master: array<int>, n: nat)
    requires master.Length == MAXN * MAXN && n <= MAXN && dst.Length == n * n
    requires dst != master
    modifies dst
    ensures dst[..] == Submatrix(master[..], n)
  {
    for i := 0 to n
      invariant forall p :: 0 <= p < n * n && Row(n, p) < i ==> dst[p] == Submatrix(master[..], n)[p]
    {
      CopyRow(dst, master, n, i);
    }
  }

  /** zero: the memset of all n*n elements. */
  method Zero(M: array<int>, n: nat)
    requires M.Length == n * n
    modifies M
    ensures M[..] == Zeros(n)
  {
    for p := 0 to n * n
      invariant forall q :: 0 <= q < p ==> M[q] == 0
    {
      M[p] := 0;
    }
  }

  /** The transpose of the n×n buffer b. */
  function Transposed(b: seq<int>, n: nat): (t: seq<int>)
    requires |b| == n * n
    ensures |t| == n * n
  {
    seq(n * n, q requires 0 <= q < n * n => b[Idx(n, Col(n, q), Row(n, q))])
  }

  /** Cell (i, j) of the transpose is cell (j, i) of the original. */
  lemma TransposedCell(b: seq<int>, n: nat, i: int, j: int)
    requires |b| == n * n && 0 <= i < n && 0 <= j < n
    ensures Transposed(b, n)[Idx(n, i, j)] == b[Idx(n, j, i)]
  {
    RowColIdx(n, i, j);
  }

  /** Transposing twice gives the buffer back. */
  lemma TransposedInvolution(b: seq<int>, n: nat)
    requires |b| == n * n
    ensures Transposed(Transposed(b, n), n) == b
  {
    forall q | 0 <= q < n * n
      ensures Transposed(Transposed(b, n), n)[q] == b[q]
    {
      var i, j := Row(n, q), Col(n, q);
      TransposedCell(Transposed(b, n), n, i, j);
      TransposedCell(b, n, j, i);
    }
  }

  /** transpose: BT becomes the transpose of B, which is left unchanged. */
  method Transpose(B: array<int>, BT: array<int>, n: nat)
    requires B.Length == n * n && BT.Length == n * n && B != BT
    modifies BT
    ensures BT[..] == Transposed(B[..], n)
  {
    for i := 0 to n
      invariant forall q :: 0 <= q < n * n && Col(n, q) < i ==> BT[q] == Transposed(B[..], n)[q]
    {
      for j := 0 to n
        invariant forall q :: 0 <= q < n * n && (Col(n, q) < i || (Col(n, q) == i && Row(n, q) < j)) ==>
          BT[q] == Transposed(B[..], n)[q]
      {
        RowColIdx(n, j, i);
        BT[Idx(n, j, i)] := B[Idx(n, i, j)];
      }
    }
  }

  /** The running maximum of |a[p] - b[p]| over p < m, starting from 0; each step
      keeps the running value unless it is smaller than the new difference, as
      std::max does. */
  function MaxDiff(a: seq<int>, b: seq<int>, m: nat): int
    requires m <= |a| && m <= |b|
  {
    if m == 0 then 0
    else
      var err, d := MaxDiff(a, b, m - 1), Abs(a[m - 1] - b[m - 1]);
      if err < d then d else err
  }

  /** The maximum is an upper bound of every difference, is never negative, and is
      0 or one of the differences. */
  lemma {:induction false} MaxDiffBounds(a: seq<int>, b: seq<int>, m: nat)
    requires m <= |a| && m <= |b|
    ensures MaxDiff(a, b, m) >= 0
    ensures forall p :: 0 <= p < m ==> Abs(a[p] - b[p]) <= MaxDiff(a, b, m)
    ensures MaxDiff(a, b, m) == 0 || exists p :: 0 <= p < m && MaxDiff(a, b, m) == Abs(a[p] - b[p])
  {
    if m > 0 {
      MaxDiffBounds(a, b, m - 1);
    }
  }

  /** The maximum difference is 0 exactly when the first m elements agree. */
  lemma MaxDiffZero(a: seq<int>, b: seq<int>, m: nat)
    requires m <= |a| && m <= |b|
    ensures MaxDiff(a, b, m) == 0 <==> a[..m] == b[..m]
  {
    MaxDiffBounds(a, b, m);
    if MaxDiff(a, b, m) == 0 {
      forall p | 0 <= p < m
        ensures a[p] == b[p]
      {
        assert Abs(a[p] - b[p]) <= 0;
      }
      assert a[..m] == b[..m];
    } else {
      var p :| 0 <= p < m && MaxDiff(a, b, m) == Abs(a[p] - b[p]);
      assert a[..m][p] != b[..m][p];
    }
  }

  /** The difference does not depend on which buffer comes first. */
  lemma {:induction false} MaxDiffSymmetric(a: seq<int>, b: seq<int>, m: nat)
    requires m <= |a| && m <= |b|
    ensures MaxDiff(a, b, m) == MaxDiff(b, a, m)
  {
    if m > 0 {
      MaxDiffSymmetric(a, b, m - 1);
    }
  }

  /** max_abs_diff: the largest element-wise difference of two n×n buffers, which
      is 0 exactly when they are equal. */
  method MaxAbsDiff(A: array<int>, B: array<int>, n: nat) returns (err: int)
    requires A.Length == n * n && B.Length == n * n
    ensures err == MaxDiff(A[..], B[..], n * n)
    ensures err >= 0 && (err == 0 <==> A[..] == B[..])
  {
    err := 0;
    for p := 0 to n * n
      invariant err == MaxDiff(A[..], B[..], p)
    {
      var d := Abs(A[p] - B[p]);
      err := if err < d then d else err;
    }
    MaxDiffBounds(A[..], B[..], n * n);
    MaxDiffZero(A[..], B[..], n * n);
    assert A[..] == A[..n * n] && B[..] == B[..n * n];
  }
}
