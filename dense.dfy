/** Square matrices stored row-major in flat buffers (the `i*N + j` addressing used
    by every flat kernel of the repository) and the matrix product they are checked
    against. Elements are mathematical integers. */
module Dense {

  import opened Arith

  /** Row-major offset of cell (i, j) of an n×n buffer. */
  function Idx(n: nat, i: int, j: int): (p: nat)
    requires 0 <= i < n && 0 <= j < n
    ensures p < n * n
  {
    assert i * n + j < (i + 1) * n <= n * n by {
      MulLe(i + 1, n, n);
    }
    i * n + j
  }

  /** Every cell of an earlier row lies before every cell of a later row. */
  lemma IdxLess(n: nat, i: int, j: int, i': int, j': int)
    requires 0 <= i < i' < n && 0 <= j < n && 0 <= j' < n
    ensures Idx(n, i, j) < Idx(n, i', j')
  {
    MulLe(i + 1, i', n);
    assert i * n + j < (i + 1) * n;
  }

  /** Distinct cells have distinct offsets. */
  lemma IdxInjective(n: nat)
    ensures forall i, j, i', j' {:trigger Idx(n, i, j), Idx(n, i', j')} ::
      0 <= i < n && 0 <= j < n && 0 <= i' < n && 0 <= j' < n && Idx(n, i, j) == Idx(n, i', j')
      ==> i == i' && j == j'
  {
    forall i, j, i', j' | 0 <= i < n && 0 <= j < n && 0 <= i' < n && 0 <= j' < n && Idx(n, i, j) == Idx(n, i', j')
      ensures i == i' && j == j'
    {
      if i < i' {
        IdxLess(n, i, j, i', j');
      } else if i' < i {
        IdxLess(n, i', j', i, j);
      }
    }
  }

  /** Every offset below n*n is the offset of the cell (p / n, p % n). */
  lemma IdxOnto(n: nat, p: int) returns (i: int, j: int)
    requires 0 <= p < n * n
    ensures 0 <= i < n && 0 <= j < n && Idx(n, i, j) == p
    ensures i == p / n && j == p % n
  {
    assert n > 0;
    i, j := p / n, p % n;
    if i >= n {
      MulLe(n, i, n);
      assert false;
    }
  }

  /** The offset of cell (i, j) divides back into row i and column j. */
  lemma IdxCell(n: nat, i: int, j: int)
    requires 0 <= i < n && 0 <= j < n
    ensures Idx(n, i, j) / n == i && Idx(n, i, j) % n == j
  {
    var i', j' := IdxOnto(n, Idx(n, i, j));
    if i < i' {
      IdxLess(n, i, j, i', j');
    } else if i' < i {
      IdxLess(n, i', j', i, j);
    }
  }

  /** An offset below n*n addresses the cell (p / n, p % n). */
  lemma OffsetCell(n: nat, p: int)
    requires 0 <= p < n * n
    ensures 0 <= p / n < n && 0 <= p % n < n && Idx(n, p / n, p % n) == p
  {
    var i, j := IdxOnto(n, p);
  }

  /** The row of the cell at offset p. */
  function Row(n: nat, p: int): (i: nat)
    requires 0 <= p < n * n
    ensures i < n && i == p / n
  {
    OffsetCell(n, p);
    p / n
  }

  /** The column of the cell at offset p; p is the offset of (Row(n, p), Col(n, p)). */
  function Col(n: nat, p: int): (j: nat)
    requires 0 <= p < n * n
    ensures j < n && j == p % n && Idx(n, p / n, j) == p
  {
    OffsetCell(n, p);
    p % n
  }

  /** The offset of cell (i, j) lies in row i and column j. */
  lemma RowColIdx(n: nat, i: int, j: int)
    requires 0 <= i < n && 0 <= j < n
    ensures Row(n, Idx(n, i, j)) == i && Col(n, Idx(n, i, j)) == j
  {
    IdxCell(n, i, j);
  }

  /** Sum over k < m of a[i][k] * b[k][j]. */
  function Dot(a: seq<int>, b: seq<int>, n: nat, i: int, j: int, m: int): int
    requires |a| == n * n && |b| == n * n
    requires 0 <= i < n && 0 <= j < n && 0 <= m <= n
  {
    if m == 0 then 0 else Dot(a, b, n, i, j, m - 1) + a[Idx(n, i, m - 1)] * b[Idx(n, m - 1, j)]
  }

  /** The partial dot product of the cell at offset p. */
  function DotAt(a: seq<int>, b: seq<int>, n: nat, p: int, m: int): int
    requires |a| == n * n && |b| == n * n && 0 <= p < n * n && 0 <= m <= n
  {
    Dot(a, b, n, Row(n, p), Col(n, p), m)
  }

  /** c holds the product of a and b. */
  ghost predicate IsProduct(c: seq<int>, a: seq<int>, b: seq<int>, n: nat)
    requires |a| == n * n && |b| == n * n
  {
    |c| == n * n &&
    forall i, j :: 0 <= i < n && 0 <= j < n ==> c[Idx(n, i, j)] == Dot(a, b, n, i, j, n)
  }

  /** Two n×n buffers that agree on every cell (i, j) are equal. */
  lemma CellsCover(c: seq<int>, d: seq<int>, n: nat)
    requires |c| == n * n && |d| == n * n
    requires forall i, j :: 0 <= i < n && 0 <= j < n ==> c[Idx(n, i, j)] == d[Idx(n, i, j)]
    ensures c == d
  {
    forall p | 0 <= p < n * n
      ensures c[p] == d[p]
    {
      var i, j := IdxOnto(n, p);
    }
  }

  /** Two buffers that both hold the product agree everywhere: any kernel proved to
      compute the product matches any other one, cell for cell. */
  lemma ProductUnique(c1: seq<int>, c2: seq<int>, a: seq<int>, b: seq<int>, n: nat)
    requires |a| == n * n && |b| == n * n
    requires IsProduct(c1, a, b, n) && IsProduct(c2, a, b, n)
    ensures c1 == c2
  {
    CellsCover(c1, c2, n);
  }

  /** The element-wise sum of two buffers of the same length. */
  function Plus(a: seq<int>, b: seq<int>): (c: seq<int>)
    requires |a| == |b|
  {
    seq(|a|, k requires 0 <= k < |a| => a[k] + b[k])
  }

  /** A buffer of n*n zeros. */
  function Zeros(n: nat): (z: seq<int>)
    ensures |z| == n * n && forall p :: 0 <= p < n * n ==> z[p] == 0
  {
    seq(n * n, _ => 0)
  }

  /** A buffer whose every offset holds the full dot product of its cell holds the
      product. */
  lemma ProductFromOffsets(c: seq<int>, a: seq<int>, b: seq<int>, n: nat)
    requires |a| == n * n && |b| == n * n && |c| == n * n
    requires forall p :: 0 <= p < n * n ==> c[p] == DotAt(a, b, n, p, n)
    ensures IsProduct(c, a, b, n)
  {
    forall i, j | 0 <= i < n && 0 <= j < n
      ensures c[Idx(n, i, j)] == Dot(a, b, n, i, j, n)
    {
      RowColIdx(n, i, j);
    }
  }
}
