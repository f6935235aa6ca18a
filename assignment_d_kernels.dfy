/** Assignment1/D/matmul.cpp, the six pthread kernels for C += A·B on flat N×N
    buffers and the runner that zeroes C, lets every thread do its share and
    compares C with the reference product. Each kernel is proved to add the full
    dot product to exactly the cells its thread owns: the rows of its proportional
    range (ijk, transposed, ikj, blocked), the 64-row bands it is dealt cyclically
    (blocked parallel), or the 64×64 tiles it is dealt cyclically (2D tiled). */
module MatmulKernels {

  import opened Arith
  import opened Dense
  import opened Split
  import opened MatmulBuffers

  /** Side of the square blocks of the blocked kernels. */
  const BS: nat := 64

  /** The largest difference from the reference that is not reported; the
      comparison of doubles against 1e-9 becomes exact equality of integers. */
  const EPS: int := 0

  /** The thread counts every kernel is run with. */
  const THREADS: seq<nat> := [1, 2, 4, 8, 16]

  /** n×n operands A and B and a result buffer C stored apart from both. */
  predicate Operands(A: array<int>, B: array<int>, C: array<int>, n: nat) {
    A.Length == n * n && B.Length == n * n && C.Length == n * n && C != A && C != B
  }

  /** The partial dot product of a cell grows by one term per step of k. */
  lemma DotAtStep(a: seq<int>, b: seq<int>, n: nat, p: int, k: int)
    requires |a| == n * n && |b| == n * n && 0 <= p < n * n && 0 <= k < n
    ensures DotAt(a, b, n, p, k + 1) == DotAt(a, b, n, p, k) + a[Idx(n, Row(n, p), k)] * b[Idx(n, k, Col(n, p))]
  {
  }

  // ---------------------------------------------------------------------------
  // Loop bodies shared by the kernels

  /** The k loop of mm_ijk: C(i, j) gains the dot product of row i of A and
      column j of B; no other cell changes. */
  method AccumulateDot(A: array<int>, B: array<int>, C: array<int>, n: nat, i: nat, j: nat)
    requires Operands(A, B, C, n) && i < n && j < n
    modifies C
    ensures C[Idx(n, i, j)] == old(C[Idx(n, i, j)]) + Dot(A[..], B[..], n, i, j, n)
    ensures forall p :: 0 <= p < n * n && p != Idx(n, i, j) ==> C[p] == old(C[p])
  {
    for k := 0 to n
      invariant C[Idx(n, i, j)] == old(C[Idx(n, i, j)]) + Dot(A[..], B[..], n, i, j, k)
      invariant forall p :: 0 <= p < n * n && p != Idx(n, i, j) ==> C[p] == old(C[p])
    {
      C[Idx(n, i, j)] := C[Idx(n, i, j)] + A[Idx(n, i, k)] * B[Idx(n, k, j)];
    }
  }

  /** The k loop of mm_transposed: row i of A against row j of BT, which is
      column j of B. */
  method TransposedDot(A: array<int>, BT: array<int>, ghost b: seq<int>, n: nat, i: nat, j: nat) returns (sum: int)
    requires A.Length == n * n && BT.Length == n * n && |b| == n * n && BT[..] == Transposed(b, n)
    requires i < n && j < n
    ensures sum == Dot(A[..], b, n, i, j, n)
  {
    sum := 0;
    for k := 0 to n
      invariant sum == Dot(A[..], b, n, i, j, k)
    {
      TransposedCell(b, n, j, k);
      sum := sum + A[Idx(n, i, k)] * BT[Idx(n, j, k)];
    }
  }

  /** The innermost j loop of mm_ikj and the blocked kernels: the cells of row i
      with columns in [lo, hi) gain aik times the same column of row k of B. */
  method AccumulateRowSpan(B: array<int>, C: array<int>, n: nat, i: nat, k: nat, aik: int, lo: nat, hi: nat)
    requires B.Length == n * n && C.Length == n * n && B != C
    requires i < n && k < n && lo <= hi <= n
    modifies C
    ensures forall p :: 0 <= p < n * n ==>
      C[p] == if Row(n, p) == i && lo <= Col(n, p) < hi then old(C[p]) + aik * B[Idx(n, k, Col(n, p))] else old(C[p])
  {
    for j := lo to hi
      invariant forall p :: 0 <= p < n * n ==>
        C[p] == if Row(n, p) == i && lo <= Col(n, p) < j then old(C[p]) + aik * B[Idx(n, k, Col(n, p))] else old(C[p])
    {
      RowColIdx(n, i, j);
      C[Idx(n, i, j)] := C[Idx(n, i, j)] + aik * B[Idx(n, k, j)];
    }
  }

  /** The k loop around AccumulateRowSpan: the cells of row i with columns in
      [jj, jEnd), which hold c0 plus the dot product up to kk, come to hold c0 plus
      the dot product up to kEnd. */
  method AccumulateRow(A: array<int>, B: array<int>, C: array<int>, n: nat, ghost c0: seq<int>,
                       i: nat, kk: nat, kEnd: nat, jj: nat, jEnd: nat)
    requires Operands(A, B, C, n) && |c0| == n * n
    requires i < n && kk <= kEnd <= n && jj <= jEnd <= n
    requires forall p :: 0 <= p < n * n && Row(n, p) == i && jj <= Col(n, p) < jEnd ==>
      C[p] == c0[p] + DotAt(A[..], B[..], n, p, kk)
    modifies C
    ensures forall p :: 0 <= p < n * n ==>
      C[p] == if Row(n, p) == i && jj <= Col(n, p) < jEnd then c0[p] + DotAt(A[..], B[..], n, p, kEnd) else old(C[p])
  {
    for k := kk to kEnd
      invariant forall p :: 0 <= p < n * n ==>
        C[p] == if Row(n, p) == i && jj <= Col(n, p) < jEnd then c0[p] + DotAt(A[..], B[..], n, p, k) else old(C[p])
    {
      var aik := A[Idx(n, i, k)];
      AccumulateRowSpan(B, C, n, i, k, aik, jj, jEnd);
      forall p | 0 <= p < n * n && Row(n, p) == i && jj <= Col(n, p) < jEnd
        ensures C[p] == c0[p] + DotAt(A[..], B[..], n, p, k + 1)
      {
        DotAtStep(A[..], B[..], n, p, k);
      }
    }
  }

  /** The i, k, j loops of one block step: the cells in rows [ii, iEnd) and
      columns [jj, jEnd) go from c0 plus the dot product up to kk to c0 plus the
      dot product up to kEnd. */
  method AccumulateBlock(A: array<int>, B: array<int>, C: array<int>, n: nat, ghost c0: seq<int>,
                         ii: nat, iEnd: nat, kk: nat, kEnd: nat, jj: nat, jEnd: nat)
    requires Operands(A, B, C, n) && |c0| == n * n
    requires ii <= iEnd <= n && kk <= kEnd <= n && jj <= jEnd <= n
    requires forall p :: 0 <= p < n * n && ii <= Row(n, p) < iEnd && jj <= Col(n, p) < jEnd ==>
      C[p] == c0[p] + DotAt(A[..], B[..], n, p, kk)
    modifies C
    ensures forall p :: 0 <= p < n * n ==>
      C[p] == if ii <= Row(n, p) < iEnd && jj <= Col(n, p) < jEnd then c0[p] + DotAt(A[..], B[..], n, p, kEnd) else old(C[p])
  {
    for i := ii to iEnd
      invariant forall p :: 0 <= p < n * n ==>
        C[p] == if ii <= Row(n, p) < i && jj <= Col(n, p) < jEnd then c0[p] + DotAt(A[..], B[..], n, p, kEnd) else old(C[p])
    {
      AccumulateRow(A, B, C, n, c0, i, kk, kEnd, jj, jEnd);
    }
  }

  /** The kk and jj loops of mm_blocked and mm_blocked_parallel over the band of
      rows [ii, iEnd): every cell of the band, holding c0, comes to hold c0 plus
      its full dot product. */
  method BandSweep(A: array<int>, B: array<int>, C: array<int>, n: nat, ghost c0: seq<int>, ii: nat, iEnd: nat)
    requires Operands(A, B, C, n) && |c0| == n * n && ii <= iEnd <= n
    requires forall p :: 0 <= p < n * n && ii <= Row(n, p) < iEnd ==> C[p] == c0[p]
    modifies C
    ensures forall p :: 0 <= p < n * n ==>
      C[p] == if ii <= Row(n, p) < iEnd then c0[p] + DotAt(A[..], B[..], n, p, n) else old(C[p])
  {
    var kk := 0;
    while kk < n
      invariant forall p :: 0 <= p < n * n ==>
        C[p] == if ii <= Row(n, p) < iEnd then c0[p] + DotAt(A[..], B[..], n, p, Min(kk, n)) else old(C[p])
    {
      var kEnd := Min(kk + BS, n);
      var jj := 0;
      while jj < n
        invariant forall p :: 0 <= p < n * n ==>
          C[p] == if ii <= Row(n, p) < iEnd then c0[p] + DotAt(A[..], B[..], n, p, if Col(n, p) < jj then kEnd else kk)
                  else old(C[p])
      {
        var jEnd := Min(jj + BS, n);
        AccumulateBlock(A, B, C, n, c0, ii, iEnd, kk, kEnd, jj, jEnd);
        jj := jj + BS;
      }
      kk := kk + BS;
    }
  }

  /** The kk loop of mm_2d_tiled_parallel over the tile of rows [ii, iEnd) and
      columns [jj, jEnd): every cell of the tile, holding c0, comes to hold c0 plus
      its full dot product. */
  method TileSweep(A: array<int>, B: array<int>, C: array<int>, n: nat, ghost c0: seq<int>,
                   ii: nat, iEnd: nat, jj: nat, jEnd: nat)
    requires Operands(A, B, C, n) && |c0| == n * n && ii <= iEnd <= n && jj <= jEnd <= n
    requires forall p :: 0 <= p < n * n && ii <= Row(n, p) < iEnd && jj <= Col(n, p) < jEnd ==> C[p] == c0[p]
    modifies C
    ensures forall p :: 0 <= p < n * n ==>
      C[p] == if ii <= Row(n, p) < iEnd && jj <= Col(n, p) < jEnd then c0[p] + DotAt(A[..], B[..], n, p, n) else old(C[p])
  {
    var kk := 0;
    while kk < n
      invariant forall p :: 0 <= p < n * n ==>
        C[p] == if ii <= Row(n, p) < iEnd && jj <= Col(n, p) < jEnd then c0[p] + DotAt(A[..], B[..], n, p, Min(kk, n))
                else old(C[p])
    {
      var kEnd := Min(kk + BS, n);
      AccumulateBlock(A, B, C, n, c0, ii, iEnd, kk, kEnd, jj, jEnd);
      kk := kk + BS;
    }
  }

  // ---------------------------------------------------------------------------
  // The kernels: what one thread tid of threads does to C

  /** mm_ijk: every cell of the rows [tid*n/threads, (tid+1)*n/threads) gains its
      dot product, accumulated in C; every other cell is left alone. */
  method MmIjk(A: array<int>, B: array<int>, C: array<int>, n: nat, tid: nat, threads: nat)
    requires Operands(A, B, C, n) && tid < threads
    modifies C
    ensures forall p :: 0 <= p < n * n ==>
      C[p] == if ProportionalRange(n, threads, tid).Contains(Row(n, p)) then old(C[p]) + DotAt(A[..], B[..], n, p, n)
              else old(C[p])
  {
    var r0, r1 := tid * n / threads, (tid + 1) * n / threads;
    assert Range(r0, r1) == ProportionalRange(n, threads, tid);
    for i := r0 to r1
      invariant forall p :: 0 <= p < n * n ==>
        C[p] == if r0 <= Row(n, p) < i then old(C[p]) + DotAt(A[..], B[..], n, p, n) else old(C[p])
    {
      for j := 0 to n
        invariant forall p :: 0 <= p < n * n ==>
          C[p] == if r0 <= Row(n, p) < i || (Row(n, p) == i && Col(n, p) < j) then old(C[p]) + DotAt(A[..], B[..], n, p, n)
                  else old(C[p])
      {
        RowColIdx(n, i, j);
        AccumulateDot(A, B, C, n, i, j);
      }
    }
  }

  /** mm_transposed: every cell of the thread's rows is set to its dot product,
      read along row i of A and row j of BT; every other cell is left alone. */
  method MmTransposed(A: array<int>, B: array<int>, BT: array<int>, C: array<int>, n: nat, tid: nat, threads: nat)
    requires Operands(A, B, C, n) && BT.Length == n * n && C != BT && BT[..] == Transposed(B[..], n)
    requires tid < threads
    modifies C
    ensures forall p :: 0 <= p < n * n ==>
      C[p] == if ProportionalRange(n, threads, tid).Contains(Row(n, p)) then DotAt(A[..], B[..], n, p, n) else old(C[p])
  {
    var r0, r1 := tid * n / threads, (tid + 1) * n / threads;
    assert Range(r0, r1) == ProportionalRange(n, threads, tid);
    for i := r0 to r1
      invariant forall p :: 0 <= p < n * n ==>
        C[p] == if r0 <= Row(n, p) < i then DotAt(A[..], B[..], n, p, n) else old(C[p])
    {
      for j := 0 to n
        invariant forall p :: 0 <= p < n * n ==>
          C[p] == if r0 <= Row(n, p) < i || (Row(n, p) == i && Col(n, p) < j) then DotAt(A[..], B[..], n, p, n)
                  else old(C[p])
      {
        var sum := TransposedDot(A, BT, B[..], n, i, j);
        RowColIdx(n, i, j);
        C[Idx(n, i, j)] := sum;
      }
    }
  }

  /** mm_ikj: as mm_ijk, with the k loop outside the j loop. */
  method MmIkj(A: array<int>, B: array<int>, C: array<int>, n: nat, tid: nat, threads: nat)
    requires Operands(A, B, C, n) && tid < threads
    modifies C
    ensures forall p :: 0 <= p < n * n ==>
      C[p] == if ProportionalRange(n, threads, tid).Contains(Row(n, p)) then old(C[p]) + DotAt(A[..], B[..], n, p, n)
              else old(C[p])
  {
    ghost var c0 := C[..];
    var r0, r1 := tid * n / threads, (tid + 1) * n / threads;
    assert Range(r0, r1) == ProportionalRange(n, threads, tid);
    for i := r0 to r1
      invariant forall p :: 0 <= p < n * n ==>
        C[p] == if r0 <= Row(n, p) < i then c0[p] + DotAt(A[..], B[..], n, p, n) else c0[p]
    {
      AccumulateRow(A, B, C, n, c0, i, 0, n, 0, n);
    }
  }

  /** mm_blocked: the thread's rows in bands of BS, each band swept in BS×BS
      blocks; the result is that of mm_ijk. */
  method MmBlocked(A: array<int>, B: array<int>, C: array<int>, n: nat, tid: nat, threads: nat)
    requires Operands(A, B, C, n) && tid < threads
    modifies C
    ensures forall p :: 0 <= p < n * n ==>
      C[p] == if ProportionalRange(n, threads, tid).Contains(Row(n, p)) then old(C[p]) + DotAt(A[..], B[..], n, p, n)
              else old(C[p])
  {
    ghost var c0 := C[..];
    var r0, r1 := tid * n / threads, (tid + 1) * n / threads;
    assert Range(r0, r1) == ProportionalRange(n, threads, tid);
    var ii := r0;
    while ii < r1
      invariant r0 <= ii
      invariant forall p :: 0 <= p < n * n ==>
        C[p] == if r0 <= Row(n, p) < Min(ii, r1) then c0[p] + DotAt(A[..], B[..], n, p, n) else c0[p]
    {
      BandSweep(A, B, C, n, c0, ii, Min(ii + BS, r1));
      ii := ii + BS;
    }
  }

  /** The number of BS-wide bands (or tile rows) that cover n rows. */
  function Bands(n: nat): (m: nat)
    ensures forall r :: 0 <= r < n ==> r / BS < m
    ensures forall x :: 0 <= x < m ==> x * BS < n
  {
    (n + BS - 1) / BS
  }

  /** Row r lies in band x exactly when it lies in [x*BS, x*BS + BS). */
  lemma BandRows(r: nat, x: nat)
    ensures r / BS == x <==> x * BS <= r < x * BS + BS
  {
  }

  /** mm_blocked_parallel: thread tid takes the bands tid, tid + threads, ...;
      every cell of a row whose band it takes gains its dot product, accumulated
      in C, and every other cell is left alone. */
  method MmBlockedParallel(A: array<int>, B: array<int>, C: array<int>, n: nat, tid: nat, threads: nat)
    requires Operands(A, B, C, n) && tid < threads
    modifies C
    ensures forall p :: 0 <= p < n * n ==>
      C[p] == if (Row(n, p) / BS) % threads == tid then old(C[p]) + DotAt(A[..], B[..], n, p, n) else old(C[p])
  {
    ghost var c0 := C[..];
    var blocks := Bands(n);
    var bi := tid;
    ModSmall(tid, threads);
    forall p | 0 <= p < n * n && Row(n, p) / BS < tid
      ensures (Row(n, p) / BS) % threads != tid
    {
      ModSmall(Row(n, p) / BS, threads);
    }
    while bi < blocks
      invariant bi % threads == tid
      invariant forall p :: 0 <= p < n * n ==>
        C[p] == if (Row(n, p) / BS) % threads == tid && Row(n, p) / BS < bi then c0[p] + DotAt(A[..], B[..], n, p, n)
                else c0[p]
    {
      var ii := bi * BS;
      forall p | 0 <= p < n * n
        ensures ii <= Row(n, p) < Min(ii + BS, n) <==> Row(n, p) / BS == bi
      {
        BandRows(Row(n, p), bi);
      }
      BandSweep(A, B, C, n, c0, ii, Min(ii + BS, n));
      forall p | 0 <= p < n * n && (Row(n, p) / BS) % threads == tid && bi <= Row(n, p) / BS < bi + threads
        ensures Row(n, p) / BS == bi
      {
        ModGap(Row(n, p) / BS, bi, threads);
      }
      ModAddModulus(bi, threads);
      bi := bi + threads;
    }
  }

  /** The tile of the cell at offset p: tiles are numbered row-major in a grid of
      Bands(n) × Bands(n). */
  function TileOf(n: nat, p: int): (tile: nat)
    requires 0 <= p < n * n
    ensures tile < Bands(n) * Bands(n)
  {
    Idx(Bands(n), Row(n, p) / BS, Col(n, p) / BS)
  }

  /** The cells of tile number tile are those in rows and columns of its band. */
  lemma TileCells(n: nat, tile: int, p: int)
    requires 0 <= tile < Bands(n) * Bands(n) && 0 <= p < n * n
    ensures 0 <= tile / Bands(n) < Bands(n) && 0 <= tile % Bands(n) < Bands(n)
    ensures TileOf(n, p) == tile <==> Row(n, p) / BS == tile / Bands(n) && Col(n, p) / BS == tile % Bands(n)
  {
    OffsetCell(Bands(n), tile);
    IdxCell(Bands(n), Row(n, p) / BS, Col(n, p) / BS);
  }

  /** The body of the tile loop of mm_2d_tiled_parallel: the cells of tile
      number tile, holding c0, come to hold c0 plus their dot products. */
  method TileStep(A: array<int>, B: array<int>, C: array<int>, n: nat, ghost c0: seq<int>, tile: nat)
    requires Operands(A, B, C, n) && |c0| == n * n && tile < Bands(n) * Bands(n)
    requires forall p :: 0 <= p < n * n && TileOf(n, p) == tile ==> C[p] == c0[p]
    modifies C
    ensures forall p :: 0 <= p < n * n ==>
      C[p] == if TileOf(n, p) == tile then c0[p] + DotAt(A[..], B[..], n, p, n) else old(C[p])
  {
    var tiles := Bands(n);
    TileCells(n, tile, 0);
    var ii, jj := (tile / tiles) * BS, (tile % tiles) * BS;
    forall p | 0 <= p < n * n
      ensures (ii <= Row(n, p) < Min(ii + BS, n) && jj <= Col(n, p) < Min(jj + BS, n)) <==> TileOf(n, p) == tile
    {
      TileCells(n, tile, p);
      BandRows(Row(n, p), tile / tiles);
      BandRows(Col(n, p), tile % tiles);
    }
    TileSweep(A, B, C, n, c0, ii, Min(ii + BS, n), jj, Min(jj + BS, n));
  }

  /** mm_2d_tiled_parallel: thread tid takes the tiles tid, tid + threads, ...;
      every cell of a tile it takes gains its dot product, accumulated in C, and
      every other cell is left alone. */
  method Mm2dTiled(A: array<int>, B: array<int>, C: array<int>, n: nat, tid: nat, threads: nat)
    requires Operands(A, B, C, n) && tid < threads
    modifies C
    ensures forall p :: 0 <= p < n * n ==>
      C[p] == if TileOf(n, p) % threads == tid then old(C[p]) + DotAt(A[..], B[..], n, p, n) else old(C[p])
  {
    ghost var c0 := C[..];
    var tiles := Bands(n);
    var tile := tid;
    ModSmall(tid, threads);
    forall p | 0 <= p < n * n && TileOf(n, p) < tid
      ensures TileOf(n, p) % threads != tid
    {
      ModSmall(TileOf(n, p), threads);
    }
    while tile < tiles * tiles
      invariant tile % threads == tid
      invariant forall p :: 0 <= p < n * n ==>
        C[p] == if TileOf(n, p) % threads == tid && TileOf(n, p) < tile then c0[p] + DotAt(A[..], B[..], n, p, n)
                else c0[p]
    {
      TileStep(A, B, C, n, c0, tile);
      forall p | 0 <= p < n * n && TileOf(n, p) % threads == tid && tile <= TileOf(n, p) < tile + threads
        ensures TileOf(n, p) == tile
      {
        ModGap(TileOf(n, p), tile, threads);
      }
      ModAddModulus(tile, threads);
      tile := tile + threads;
    }
  }

  // ---------------------------------------------------------------------------
  // The runner

  /** The six kernels of the benchmark, in the order they are run. */
  datatype Kernel = Ijk | IjTransposed | Ikj | Blocked | BlockedParallel | Tiled2d {
    /** The kernel gives thread tid the rows [tid*N/threads, (tid+1)*N/threads). */
    predicate SplitsRows() {
      Ijk? || IjTransposed? || Ikj? || Blocked?
    }
  }

  const KERNELS: seq<Kernel> := [Ijk, IjTransposed, Ikj, Blocked, BlockedParallel, Tiled2d]

  /** One thread of a row-splitting kernel, started on a C whose rows for that
      thread are zero: those rows come to hold the product. */
  method RowWorker(kernel: Kernel, A: array<int>, B: array<int>, BT: array<int>, C: array<int>, n: nat, tid: nat, threads: nat)
    requires kernel.SplitsRows() && Operands(A, B, C, n) && BT.Length == n * n && C != BT
    requires BT[..] == Transposed(B[..], n) && tid < threads
    requires forall p :: 0 <= p < n * n && ProportionalRange(n, threads, tid).Contains(Row(n, p)) ==> C[p] == 0
    modifies C
    ensures forall p :: 0 <= p < n * n ==>
      C[p] == if ProportionalRange(n, threads, tid).Contains(Row(n, p)) then DotAt(A[..], B[..], n, p, n) else old(C[p])
  {
    if kernel.Ijk? {
      MmIjk(A, B, C, n, tid, threads);
    } else if kernel.IjTransposed? {
      MmTransposed(A, B, BT, C, n, tid, threads);
    } else if kernel.Ikj? {
      MmIkj(A, B, C, n, tid, threads);
    } else {
      MmBlocked(A, B, C, n, tid, threads);
    }
  }

  /** zero, then threads 0 .. threads-1 of a row-splitting kernel in turn: their
      ranges abut and cover all rows, so C ends up holding the product. */
  method RunRowSplit(kernel: Kernel, A: array<int>, B: array<int>, BT: array<int>, C: array<int>, n: nat, threads: nat)
    requires kernel.SplitsRows() && Operands(A, B, C, n) && BT.Length == n * n && C != BT
    requires BT[..] == Transposed(B[..], n) && 1 <= threads
    modifies C
    ensures IsProduct(C[..], A[..], B[..], n)
  {
    Zero(C, n);
    for t := 0 to threads
      invariant forall p :: 0 <= p < n * n ==> C[p] == if Row(n, p) < t * n / threads then DotAt(A[..], B[..], n, p, n) else 0
    {
      RowWorker(kernel, A, B, BT, C, n, t, threads);
    }
    MulDivCancel(threads, n);
    ProductFromOffsets(C[..], A[..], B[..], n);
  }

  /** zero, then every thread of mm_blocked_parallel in turn: every band has
      exactly one owner, so C ends up holding the product. */
  method RunBlockedParallel(A: array<int>, B: array<int>, C: array<int>, n: nat, threads: nat)
    requires Operands(A, B, C, n) && 1 <= threads
    modifies C
    ensures IsProduct(C[..], A[..], B[..], n)
  {
    Zero(C, n);
    for t := 0 to threads
      invariant forall p :: 0 <= p < n * n ==>
        C[p] == if (Row(n, p) / BS) % threads < t then DotAt(A[..], B[..], n, p, n) else 0
    {
      MmBlockedParallel(A, B, C, n, t, threads);
    }
    ProductFromOffsets(C[..], A[..], B[..], n);
  }

  /** zero, then every thread of mm_2d_tiled_parallel in turn: every tile has
      exactly one owner, so C ends up holding the product. */
  method RunTiled(A: array<int>, B: array<int>, C: array<int>, n: nat, threads: nat)
    requires Operands(A, B, C, n) && 1 <= threads
    modifies C
    ensures IsProduct(C[..], A[..], B[..], n)
  {
    Zero(C, n);
    for t := 0 to threads
      invariant forall p :: 0 <= p < n * n ==> C[p] == if TileOf(n, p) % threads < t then DotAt(A[..], B[..], n, p, n) else 0
    {
      Mm2dTiled(A, B, C, n, t, threads);
    }
    ProductFromOffsets(C[..], A[..], B[..], n);
  }

  /** The buffers of one run: A, B, their product Cref, the transpose BT of B, and
      a result buffer C stored apart from all of them. */
  ghost predicate RunBuffers(A: array<int>, B: array<int>, BT: array<int>, C: array<int>, Cref: array<int>, n: nat)
    reads A, B, BT, Cref
  {
    Operands(A, B, C, n) && BT.Length == n * n && Cref.Length == n * n && C != BT && C != Cref &&
    BT[..] == Transposed(B[..], n) && IsProduct(Cref[..], A[..], B[..], n)
  }

  /** run: zero C, let the threads of the kernel compute, then compare C with the
      reference; with the reference holding the product, C matches it exactly and
      no error is reported. */
  method Run(kernel: Kernel, A: array<int>, B: array<int>, BT: array<int>, C: array<int>, Cref: array<int>,
             n: nat, threads: nat) returns (err: int, reported: bool)
    requires RunBuffers(A, B, BT, C, Cref, n) && 1 <= threads
    modifies C
    ensures C[..] == Cref[..] && IsProduct(C[..], A[..], B[..], n)
    ensures err == 0 && !reported
  {
    match kernel {
      case BlockedParallel =>
        RunBlockedParallel(A, B, C, n, threads);
      case Tiled2d =>
        RunTiled(A, B, C, n, threads);
      case Ijk | IjTransposed | Ikj | Blocked =>
        RunRowSplit(kernel, A, B, BT, C, n, threads);
    }
    err := MaxAbsDiff(C, Cref, n);
    ProductUnique(C[..], Cref[..], A[..], B[..], n);
    reported := err > EPS;
  }

  /** The body of main's loop over one size: every kernel with every thread
      count, each run checked against the reference; every difference is 0. */
  method RunAll(A: array<int>, B: array<int>, BT: array<int>, C: array<int>, Cref: array<int>, n: nat)
    returns (errors: seq<int>)
    requires RunBuffers(A, B, BT, C, Cref, n)
    modifies C
    ensures |errors| == |THREADS| * |KERNELS|
    ensures forall e :: e in errors ==> e == 0
  {
    errors := [];
    for x := 0 to |THREADS|
      invariant RunBuffers(A, B, BT, C, Cref, n)
      invariant |errors| == x * |KERNELS| && forall e :: e in errors ==> e == 0
    {
      for y := 0 to |KERNELS|
        invariant RunBuffers(A, B, BT, C, Cref, n)
        invariant |errors| == x * |KERNELS| + y && forall e :: e in errors ==> e == 0
      {
        var err, _ := Run(KERNELS[y], A, B, BT, C, Cref, n, THREADS[x]);
        errors := errors + [err];
      }
    }
  }

  /** The operands of one size: A and B are the leading n×n corner of the master
      matrix and BT is the transpose of B. */
  method Prepare(master: array<int>, A: array<int>, B: array<int>, BT: array<int>, n: nat)
    requires master.Length == MAXN * MAXN && n <= MAXN
    requires A.Length == n * n && B.Length == n * n && BT.Length == n * n
    requires master != A && master != B && master != BT && A != B && A != BT && B != BT
    modifies A, B, BT
    ensures A[..] == Submatrix(master[..], n) && B[..] == Submatrix(master[..], n)
    ensures BT[..] == Transposed(B[..], n)
  {
    ExtractSubmatrix(A, master, n);
    ExtractSubmatrix(B, master, n);
    Transpose(B, BT, n);
  }
}
