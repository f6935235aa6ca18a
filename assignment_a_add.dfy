/** Assignment1/A/code.c: five orders of visiting the cells of an n×n row-major
    matrix while computing c = a + b. Every order writes every cell once and leaves
    a and b alone, so all five produce the same c. */
module MatrixAdd {

  import opened Arith
  import opened Dense

  const BLOCK: nat := 64

  /** Cell (i, j) of c already holds the sum. */
  ghost predicate SumAt(c: array<int>, a: array<int>, b: array<int>, n: nat, i: int, j: int)
    reads c, a, b
    requires 0 <= i < n && 0 <= j < n
  {
    var p := Idx(n, i, j);
    p < c.Length && p < a.Length && p < b.Length && c[p] == a[p] + b[p]
  }

  /** Every cell of c holds the sum, so c is a + b. */
  lemma AllSums(c: array<int>, a: array<int>, b: array<int>, n: nat)
    requires a.Length == b.Length == c.Length == n * n
    requires forall i, j :: 0 <= i < n && 0 <= j < n ==> SumAt(c, a, b, n, i, j)
    ensures c[..] == Plus(a[..], b[..])
  {
    forall i, j | 0 <= i < n && 0 <= j < n
      ensures c[..][Idx(n, i, j)] == Plus(a[..], b[..])[Idx(n, i, j)]
    {
      assert SumAt(c, a, b, n, i, j);
    }
    CellsCover(c[..], Plus(a[..], b[..]), n);
  }

  /** Every cell of c outside rows [ilo, ihi) and columns [jlo, jhi) keeps its
      value: the frame of a step that writes only inside that rectangle. */
  twostate predicate UnchangedOutside(c: array<int>, n: nat, ilo: int, ihi: int, jlo: int, jhi: int)
    reads c
    requires c.Length == n * n
  {
    forall i, j :: 0 <= i < n && 0 <= j < n && !(ilo <= i < ihi && jlo <= j < jhi) ==>
      c[Idx(n, i, j)] == old(c[Idx(n, i, j)])
  }

  /** The statement every variant runs for cell (i, j): c[i*n + j] = a[i*n + j] +
      b[i*n + j]; no other cell changes. */
  method StoreSum(a: array<int>, b: array<int>, c: array<int>, n: nat, i: nat, j: nat)
    requires a.Length == b.Length == c.Length == n * n && c != a && c != b && i < n && j < n
    modifies c
    ensures SumAt(c, a, b, n, i, j)
    ensures UnchangedOutside(c, n, i, i + 1, j, j + 1)
  {
    var idx := i * n + j;
    assert idx == Idx(n, i, j);
    c[idx] := a[idx] + b[idx];
    IdxInjective(n);
  }

  /** add_row_major: rows outer, columns inner. */
  method AddRowMajor(a: array<int>, b: array<int>, c: array<int>, n: nat)
    requires a.Length == b.Length == c.Length == n * n && c != a && c != b
    modifies c
    ensures c[..] == Plus(a[..], b[..])
  {
    for i := 0 to n
      invariant forall i', j' :: 0 <= i' < i && 0 <= j' < n ==> SumAt(c, a, b, n, i', j')
    {
      for j := 0 to n
        invariant forall i', j' :: 0 <= i' < i && 0 <= j' < n ==> SumAt(c, a, b, n, i', j')
        invariant forall j' :: 0 <= j' < j ==> SumAt(c, a, b, n, i, j')
      {
        label before:
        StoreSum(a, b, c, n, i, j);
        forall i', j' | 0 <= i' < n && 0 <= j' < n && (i' < i || (i' == i && j' < j))
          ensures SumAt(c, a, b, n, i', j')
        {
          assert old@before(SumAt(c, a, b, n, i', j'));
        }
      }
    }
    AllSums(c, a, b, n);
  }

  /** add_col_major: columns outer, rows inner. */
  method AddColMajor(a: array<int>, b: array<int>, c: array<int>, n: nat)
    requires a.Length == b.Length == c.Length == n * n && c != a && c != b
    modifies c
    ensures c[..] == Plus(a[..], b[..])
  {
    for j := 0 to n
      invariant forall i', j' :: 0 <= i' < n && 0 <= j' < j ==> SumAt(c, a, b, n, i', j')
    {
      for i := 0 to n
        invariant forall i', j' :: 0 <= i' < n && 0 <= j' < j ==> SumAt(c, a, b, n, i', j')
        invariant forall i' :: 0 <= i' < i ==> SumAt(c, a, b, n, i', j)
      {
        label before:
        StoreSum(a, b, c, n, i, j);
        forall i', j' | 0 <= i' < n && 0 <= j' < n && (j' < j || (j' == j && i' < i))
          ensures SumAt(c, a, b, n, i', j')
        {
          assert old@before(SumAt(c, a, b, n, i', j'));
        }
      }
    }
    AllSums(c, a, b, n);
  }

  /** add_1d_flat: one loop over the n*n offsets. */
  method Add1dFlat(a: array<int>, b: array<int>, c: array<int>, n: nat)
    requires a.Length == b.Length == c.Length == n * n && c != a && c != b
    modifies c
    ensures c[..] == Plus(a[..], b[..])
  {
    var total := n * n;
    for k := 0 to total
      invariant forall k' :: 0 <= k' < k ==> c[k'] == a[k'] + b[k']
    {
      c[k] := a[k] + b[k];
    }
  }

  /** add_pointer: three cursors that start at a, b and c and advance together. */
  method AddPointer(a: array<int>, b: array<int>, c: array<int>, n: nat)
    requires a.Length == b.Length == c.Length == n * n && c != a && c != b
    modifies c
    ensures c[..] == Plus(a[..], b[..])
  {
    var total := n * n;
    var pa, pb, pc := 0, 0, 0;
    for k := 0 to total
      invariant pa == pb == pc == k
      invariant forall k' :: 0 <= k' < k ==> c[k'] == a[k'] + b[k']
    {
      c[pc] := a[pa] + b[pb];
      pa, pb, pc := pa + 1, pb + 1, pc + 1;
    }
  }

  /** The cells a blocked loop has finished once it reaches the tile with corner
      (ii, jj): all block rows above, and the tiles left of it in its block row. */
  ghost predicate BlockedDone(c: array<int>, a: array<int>, b: array<int>, n: nat, ii: int, jj: int)
    reads c, a, b
  {
    forall i, j :: 0 <= i < n && 0 <= j < n && (i < ii || (i < ii + BLOCK && j < jj)) ==> SumAt(c, a, b, n, i, j)
  }

  /** Offset p of c already holds the sum. */
  ghost predicate Summed(c: array<int>, a: array<int>, b: array<int>, p: int)
    reads c, a, b
  {
    0 <= p < c.Length && p < a.Length && p < b.Length && c[p] == a[p] + b[p]
  }

  /** Row i, columns lo.. while below both hi and n: one row of a tile of
      add_blocked (hi = jj + BLOCK), or a whole row (hi = n). The columns are
      consecutive offsets of the buffer. No cell outside the span changes. */
  method AddRowSpan(a: array<int>, b: array<int>, c: array<int>, n: nat, i: nat, lo: nat, hi: int)
    requires a.Length == b.Length == c.Length == n * n && c != a && c != b && i < n
    modifies c
    ensures forall j :: lo <= j < hi && j < n ==> SumAt(c, a, b, n, i, j)
    ensures UnchangedOutside(c, n, i, i + 1, lo, hi)
  {
    var j := lo;
    while j < hi && j < n
      invariant lo <= j && (j <= hi || j == lo)
      invariant forall j' :: lo <= j' < j && j' < hi && j' < n ==> SumAt(c, a, b, n, i, j')
      invariant UnchangedOutside(c, n, i, i + 1, lo, j)
    {
      label before:
      StoreSum(a, b, c, n, i, j);
      forall j' | lo <= j' < j && j' < hi && j' < n
        ensures SumAt(c, a, b, n, i, j')
      {
        assert old@before(SumAt(c, a, b, n, i, j'));
      }
      j := j + 1;
    }
  }

  /** One tile of add_blocked: rows ii.. and columns jj.., at most BLOCK of each,
      cut at n. No cell outside the tile changes. */
  method AddTile(a: array<int>, b: array<int>, c: array<int>, n: nat, ii: nat, jj: nat)
    requires a.Length == b.Length == c.Length == n * n && c != a && c != b
    modifies c
    ensures forall i, j :: ii <= i < ii + BLOCK && jj <= j < jj + BLOCK && i < n && j < n ==> SumAt(c, a, b, n, i, j)
    ensures UnchangedOutside(c, n, ii, ii + BLOCK, jj, jj + BLOCK)
  {
    var i := ii;
    while i < ii + BLOCK && i < n
      invariant ii <= i <= ii + BLOCK
      invariant forall i', j' :: ii <= i' < i && jj <= j' < jj + BLOCK && i' < n && j' < n ==> SumAt(c, a, b, n, i', j')
      invariant UnchangedOutside(c, n, ii, i, jj, jj + BLOCK)
    {
      label before:
      AddRowSpan(a, b, c, n, i, jj, jj + BLOCK);
      forall i', j' | ii <= i' < i && jj <= j' < jj + BLOCK && i' < n && j' < n
        ensures SumAt(c, a, b, n, i', j')
      {
        assert old@before(SumAt(c, a, b, n, i', j'));
      }
      i := i + 1;
    }
  }

  /** add_blocked: 64×64 tiles in row-major order, each visited row by row; the
      `i < n` and `j < n` guards cut the tiles of the last block row and column. */
  method AddBlocked(a: array<int>, b: array<int>, c: array<int>, n: nat)
    requires a.Length == b.Length == c.Length == n * n && c != a && c != b
    modifies c
    ensures c[..] == Plus(a[..], b[..])
  {
    var ii := 0;
    while ii < n
      invariant BlockedDone(c, a, b, n, ii, 0)
    {
      var jj := 0;
      while jj < n
        invariant BlockedDone(c, a, b, n, ii, jj)
      {
        label before:
        AddTile(a, b, c, n, ii, jj);
        forall i, j | 0 <= i < n && 0 <= j < n && (i < ii || (i < ii + BLOCK && j < jj))
          ensures SumAt(c, a, b, n, i, j)
        {
          assert old@before(SumAt(c, a, b, n, i, j));
        }
        jj := jj + BLOCK;
      }
      ii := ii + BLOCK;
    }
    AllSums(c, a, b, n);
  }

  /** main for one size: a = 1 and b = 2 everywhere, then the five variants one
      after the other on the same c; every variant leaves c = a + b, all threes. */
  method RunSize(n: nat) returns (c: array<int>)
    ensures c.Length == n * n && forall k :: 0 <= k < n * n ==> c[k] == 3
  {
    var a := new int[n * n];
    var b := new int[n * n];
    c := new int[n * n];
    for k := 0 to n * n
      invariant forall k' :: 0 <= k' < k ==> a[k'] == 1 && b[k'] == 2
    {
      a[k], b[k] := 1, 2;
    }
    AddRowMajor(a, b, c, n);
    AddColMajor(a, b, c, n);
    Add1dFlat(a, b, c, n);
    AddPointer(a, b, c, n);
    AddBlocked(a, b, c, n);
    assert forall k :: 0 <= k < n * n ==> c[..][k] == Plus(a[..], b[..])[k];
  }
}
