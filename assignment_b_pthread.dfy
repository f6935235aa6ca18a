/** Assignment1/B/code.c: C = A + B on N×N matrices split among threads, for five
    layouts — row-major and column-major blocks of rows or columns, a strided
    ("numpy") layout, a Morton-ordered layout and 64×64 tiles. The threads write
    disjoint cells and are run here one after the other. */
module PthreadAdd {

  import opened Arith
  import opened Split
  import opened Dense
  import opened Morton
  import opened MatrixAdd

  const TILE_SIZE: nat := 64

  /** The largest N whose N*N fits a C int. */
  const MAX_SIDE: nat := 46340

  /** The part of ThreadData a worker reads besides the three matrices. */
  datatype ThreadData = ThreadData(start: int, end: int, n: int, sRow: int, sCol: int)

  /** worker_row_major: rows [start, end), every column; no other cell changes. */
  method WorkerRowMajor(A: array<int>, B: array<int>, C: array<int>, data: ThreadData)
    requires A.Length == B.Length == C.Length == data.n * data.n && C != A && C != B
    requires 0 <= data.start && data.end <= data.n && 0 <= data.n
    modifies C
    ensures forall i, j :: data.start <= i < data.end && 0 <= j < data.n ==> SumAt(C, A, B, data.n, i, j)
    ensures UnchangedOutside(C, data.n, data.start, data.end, 0, data.n)
  {
    var n := data.n;
    var i := data.start;
    while i < data.end
      invariant data.start <= i && (i <= data.end || i == data.start)
      invariant forall i', j :: data.start <= i' < i && 0 <= j < n ==> SumAt(C, A, B, n, i', j)
      invariant UnchangedOutside(C, n, data.start, i, 0, n)
    {
      label before:
      AddRowSpan(A, B, C, n, i, 0, n);
      forall i', j | data.start <= i' < i && 0 <= j < n
        ensures SumAt(C, A, B, n, i', j)
      {
        assert old@before(SumAt(C, A, B, n, i', j));
      }
      i := i + 1;
    }
  }

  /** The inner loop of worker_col_major: column j, every row; no other cell
      changes. */
  method AddColumn(A: array<int>, B: array<int>, C: array<int>, n: nat, j: nat)
    requires A.Length == B.Length == C.Length == n * n && C != A && C != B && j < n
    modifies C
    ensures forall i :: 0 <= i < n ==> SumAt(C, A, B, n, i, j)
    ensures UnchangedOutside(C, n, 0, n, j, j + 1)
  {
    for i := 0 to n
      invariant forall i' :: 0 <= i' < i ==> SumAt(C, A, B, n, i', j)
      invariant UnchangedOutside(C, n, 0, i, j, j + 1)
    {
      label before:
      StoreSum(A, B, C, n, i, j);
      forall i' | 0 <= i' < i
        ensures SumAt(C, A, B, n, i', j)
      {
        assert old@before(SumAt(C, A, B, n, i', j));
      }
    }
  }

  /** worker_col_major: columns [start, end), every row; no other cell changes. */
  method WorkerColMajor(A: array<int>, B: array<int>, C: array<int>, data: ThreadData)
    requires A.Length == B.Length == C.Length == data.n * data.n && C != A && C != B
    requires 0 <= data.start && data.end <= data.n && 0 <= data.n
    modifies C
    ensures forall i, j :: 0 <= i < data.n && data.start <= j < data.end ==> SumAt(C, A, B, data.n, i, j)
    ensures UnchangedOutside(C, data.n, 0, data.n, data.start, data.end)
  {
    var n := data.n;
    var j := data.start;
    while j < data.end
      invariant data.start <= j && (j <= data.end || j == data.start)
      invariant forall i, j' :: 0 <= i < n && data.start <= j' < j ==> SumAt(C, A, B, n, i, j')
      invariant UnchangedOutside(C, n, 0, n, data.start, j)
    {
      label before:
      AddColumn(A, B, C, n, j);
      forall i, j' | 0 <= i < n && data.start <= j' < j
        ensures SumAt(C, A, B, n, i, j')
      {
        assert old@before(SumAt(C, A, B, n, i, j'));
      }
      j := j + 1;
    }
  }

  /** Every offset of C outside S keeps its value: the frame of a step that writes
      only at the offsets of S. */
  twostate predicate KeepsOutside(C: array<int>, S: set<int>)
    reads C
  {
    forall q :: 0 <= q < C.Length && q !in S ==> C[q] == old(C[q])
  }

  /** C[p] = A[p] + B[p] at a flat offset p; no other offset changes. */
  method StoreOffset(A: array<int>, B: array<int>, C: array<int>, p: int)
    requires A.Length == B.Length == C.Length && C != A && C != B && 0 <= p < C.Length
    modifies C
    ensures Summed(C, A, B, p)
    ensures KeepsOutside(C, {p})
  {
    C[p] := A[p] + B[p];
  }

  /** The offset worker_numpy computes for cell (i, j) from the row and column
      strides. With the strides main passes (s_row = N, s_col = 1) it is the
      row-major offset, so the numpy layout touches the same cells as
      worker_row_major. */
  function Strided(i: int, j: int, sRow: int, sCol: int): (p: int)
    ensures 0 <= i < sRow && 0 <= j < sRow && sCol == 1 ==> p == Idx(sRow, i, j)
  {
    i * sRow + j * sCol
  }

  /** The offsets worker_numpy computes for the cells (i, j) with ilo <= i < ihi
      and jlo <= j < jhi. */
  ghost function StridedOffsets(sRow: int, sCol: int, ilo: int, ihi: int, jlo: int, jhi: int): set<int>
  {
    set i, j | ilo <= i < ihi && jlo <= j < jhi :: Strided(i, j, sRow, sCol)
  }

  /** The offsets of a block of rows are those of its upper and lower parts. */
  lemma StridedOffsetsSplitRows(sRow: int, sCol: int, ilo: int, imid: int, ihi: int, jlo: int, jhi: int)
    requires ilo <= imid <= ihi
    ensures StridedOffsets(sRow, sCol, ilo, ihi, jlo, jhi)
         == StridedOffsets(sRow, sCol, ilo, imid, jlo, jhi) + StridedOffsets(sRow, sCol, imid, ihi, jlo, jhi)
  {
    forall p | p in StridedOffsets(sRow, sCol, ilo, ihi, jlo, jhi)
      ensures p in StridedOffsets(sRow, sCol, ilo, imid, jlo, jhi) + StridedOffsets(sRow, sCol, imid, ihi, jlo, jhi)
    {
      var i, j :| ilo <= i < ihi && jlo <= j < jhi && p == Strided(i, j, sRow, sCol);
      if i < imid {
        assert p in StridedOffsets(sRow, sCol, ilo, imid, jlo, jhi);
      } else {
        assert p in StridedOffsets(sRow, sCol, imid, ihi, jlo, jhi);
      }
    }
  }

  /** The offsets of row i, columns [jlo, j + 1), are those of columns [jlo, j)
      and the offset of (i, j). */
  lemma StridedOffsetsNextCol(sRow: int, sCol: int, i: int, jlo: int, j: int)
    requires jlo <= j
    ensures StridedOffsets(sRow, sCol, i, i + 1, jlo, j + 1)
         == StridedOffsets(sRow, sCol, i, i + 1, jlo, j) + {Strided(i, j, sRow, sCol)}
  {
    var before, after := StridedOffsets(sRow, sCol, i, i + 1, jlo, j), StridedOffsets(sRow, sCol, i, i + 1, jlo, j + 1);
    forall p | p in after
      ensures p in before + {Strided(i, j, sRow, sCol)}
    {
      var i', j' :| i <= i' < i + 1 && jlo <= j' < j + 1 && p == Strided(i', j', sRow, sCol);
      if j' < j {
        assert p in before;
      }
    }
    assert Strided(i, j, sRow, sCol) in after;
  }

  /** The strides keep every cell of rows [start, end) inside the buffers. */
  ghost predicate StridesInBounds(data: ThreadData, len: int) {
    forall i, j :: data.start <= i < data.end && 0 <= j < data.n ==> 0 <= Strided(i, j, data.sRow, data.sCol) < len
  }

  /** worker_numpy: rows [start, end), every column, at offset i*s_row + j*s_col;
      no other offset changes. */
  method WorkerNumpy(A: array<int>, B: array<int>, C: array<int>, data: ThreadData)
    requires A.Length == B.Length == C.Length && C != A && C != B
    requires StridesInBounds(data, C.Length)
    modifies C
    ensures forall i, j :: data.start <= i < data.end && 0 <= j < data.n ==>
      Summed(C, A, B, Strided(i, j, data.sRow, data.sCol))
    ensures KeepsOutside(C, StridedOffsets(data.sRow, data.sCol, data.start, data.end, 0, data.n))
  {
    var i := data.start;
    while i < data.end
      invariant data.start <= i && (i <= data.end || i == data.start)
      invariant forall i', j :: data.start <= i' < i && 0 <= j < data.n ==> Summed(C, A, B, Strided(i', j, data.sRow, data.sCol))
      invariant KeepsOutside(C, StridedOffsets(data.sRow, data.sCol, data.start, i, 0, data.n))
    {
      var j := 0;
      while j < data.n
        invariant 0 <= j && (j <= data.n || j == 0)
        invariant forall i', j' :: data.start <= i' < i && 0 <= j' < data.n ==> Summed(C, A, B, Strided(i', j', data.sRow, data.sCol))
        invariant forall j' :: 0 <= j' < j ==> Summed(C, A, B, Strided(i, j', data.sRow, data.sCol))
        invariant KeepsOutside(C, StridedOffsets(data.sRow, data.sCol, data.start, i, 0, data.n)
                                  + StridedOffsets(data.sRow, data.sCol, i, i + 1, 0, j))
      {
        label before:
        var idx := (i * data.sRow) + (j * data.sCol);
        assert idx == Strided(i, j, data.sRow, data.sCol);
        StoreOffset(A, B, C, idx);
        forall i', j' | (data.start <= i' < i && 0 <= j' < data.n) || (i' == i && 0 <= j' < j)
          ensures Summed(C, A, B, Strided(i', j', data.sRow, data.sCol))
        {
          assert old@before(Summed(C, A, B, Strided(i', j', data.sRow, data.sCol)));
        }
        StridedOffsetsNextCol(data.sRow, data.sCol, i, 0, j);
        j := j + 1;
      }
      StridedOffsetsSplitRows(data.sRow, data.sCol, data.start, i, i + 1, 0, data.n);
      if j != data.n {
        assert StridedOffsets(data.sRow, data.sCol, i, i + 1, 0, data.n) == {};
      }
      i := i + 1;
    }
    if i != data.end {
      assert StridedOffsets(data.sRow, data.sCol, data.start, data.end, 0, data.n) == {};
    }
  }

  /** morton_encode(i, j) as the offset worker_morton writes. */
  function MortonIndex(i: int, j: int): (p: int)
    requires 0 <= i < 0x1_0000_0000 && 0 <= j < 0x1_0000_0000
    ensures 0 <= p < 0x1_0000_0000
    ensures Decode(p as bv32) == ((i as bv32) & 0xFFFF, (j as bv32) & 0xFFFF)
  {
    Encode(i as bv32, j as bv32) as int
  }

  /** The Morton codes below n*n of the cells (i, j) of the n×n matrix with
      ilo <= i < ihi and jlo <= j < jhi: the offsets worker_morton writes for them. */
  ghost function MortonCodes(n: nat, ilo: int, ihi: int, jlo: int, jhi: int): set<int>
  {
    set i, j | ilo <= i < ihi && jlo <= j < jhi && 0 <= i < n && 0 <= j < n && n <= MAX_SIDE && MortonIndex(i, j) < n * n
      :: MortonIndex(i, j)
  }

  /** Every offset of S holds its sum. */
  ghost predicate AllSummed(C: array<int>, A: array<int>, B: array<int>, S: set<int>)
    reads C, A, B
  {
    forall p :: p in S ==> Summed(C, A, B, p)
  }

  /** The codes of a block of rows are those of its upper and lower parts. */
  lemma MortonCodesSplitRows(n: nat, ilo: int, imid: int, ihi: int, jlo: int, jhi: int)
    requires ilo <= imid <= ihi
    ensures MortonCodes(n, ilo, ihi, jlo, jhi) == MortonCodes(n, ilo, imid, jlo, jhi) + MortonCodes(n, imid, ihi, jlo, jhi)
  {
    forall p | p in MortonCodes(n, ilo, ihi, jlo, jhi)
      ensures p in MortonCodes(n, ilo, imid, jlo, jhi) + MortonCodes(n, imid, ihi, jlo, jhi)
    {
      var i, j :| ilo <= i < ihi && jlo <= j < jhi && 0 <= i < n && 0 <= j < n && n <= MAX_SIDE && MortonIndex(i, j) < n * n && p == MortonIndex(i, j);
      if i < imid {
        assert p in MortonCodes(n, ilo, imid, jlo, jhi);
      } else {
        assert p in MortonCodes(n, imid, ihi, jlo, jhi);
      }
    }
  }

  /** The codes of a block of columns are those of its left and right parts. */
  lemma MortonCodesSplitCols(n: nat, ilo: int, ihi: int, jlo: int, jmid: int, jhi: int)
    requires jlo <= jmid <= jhi
    ensures MortonCodes(n, ilo, ihi, jlo, jhi) == MortonCodes(n, ilo, ihi, jlo, jmid) + MortonCodes(n, ilo, ihi, jmid, jhi)
  {
    forall p | p in MortonCodes(n, ilo, ihi, jlo, jhi)
      ensures p in MortonCodes(n, ilo, ihi, jlo, jmid) + MortonCodes(n, ilo, ihi, jmid, jhi)
    {
      var i, j :| ilo <= i < ihi && jlo <= j < jhi && 0 <= i < n && 0 <= j < n && n <= MAX_SIDE && MortonIndex(i, j) < n * n && p == MortonIndex(i, j);
      if j < jmid {
        assert p in MortonCodes(n, ilo, ihi, jlo, jmid);
      } else {
        assert p in MortonCodes(n, ilo, ihi, jmid, jhi);
      }
    }
  }

  /** Every cell of the matrix whose code is below n*n contributes it. */
  lemma MortonCodesHold(n: nat, i: nat, j: nat)
    requires i < n <= MAX_SIDE && j < n && MortonIndex(i, j) < n * n
    ensures MortonIndex(i, j) in MortonCodes(n, 0, n, 0, n)
  {
  }

  /** The single cell (i, j) contributes its own code, when that is below n*n. */
  lemma MortonCodesOneCell(n: nat, i: nat, j: nat)
    requires i < n <= MAX_SIDE && j < n
    ensures MortonCodes(n, i, i + 1, j, j + 1) == if MortonIndex(i, j) < n * n then {MortonIndex(i, j)} else {}
  {
  }

  /** One iteration of worker_morton: the store for cell (i, j), skipped when its
      code is not below N*N; no other offset changes. */
  method MortonCell(A: array<int>, B: array<int>, C: array<int>, n: nat, i: nat, j: nat)
    requires A.Length == B.Length == C.Length == n * n && C != A && C != B
    requires i < n <= MAX_SIDE && j < n
    modifies C
    ensures AllSummed(C, A, B, MortonCodes(n, i, i + 1, j, j + 1))
    ensures KeepsOutside(C, MortonCodes(n, i, i + 1, j, j + 1))
  {
    var idx := MortonIndex(i, j);
    if idx < n * n {
      StoreOffset(A, B, C, idx);
    }
    MortonCodesOneCell(n, i, j);
  }

  /** The inner loop of worker_morton for row i; no offset outside row i's codes
      changes. */
  method MortonRow(A: array<int>, B: array<int>, C: array<int>, n: nat, i: nat)
    requires A.Length == B.Length == C.Length == n * n && C != A && C != B
    requires i < n <= MAX_SIDE
    modifies C
    ensures AllSummed(C, A, B, MortonCodes(n, i, i + 1, 0, n))
    ensures KeepsOutside(C, MortonCodes(n, i, i + 1, 0, n))
  {
    for j := 0 to n
      invariant AllSummed(C, A, B, MortonCodes(n, i, i + 1, 0, j))
      invariant KeepsOutside(C, MortonCodes(n, i, i + 1, 0, j))
    {
      label before:
      MortonCell(A, B, C, n, i, j);
      MortonCodesSplitCols(n, i, i + 1, 0, j, j + 1);
      forall p | p in MortonCodes(n, i, i + 1, 0, j)
        ensures Summed(C, A, B, p)
      {
        assert old@before(Summed(C, A, B, p));
      }
    }
  }

  /** worker_morton: for rows [start, end) and every column, the Morton code of
      (i, j), skipped when it is not below N*N; no offset outside those codes
      changes. */
  method WorkerMorton(A: array<int>, B: array<int>, C: array<int>, data: ThreadData)
    requires A.Length == B.Length == C.Length == data.n * data.n && C != A && C != B
    requires 0 <= data.start && data.end <= data.n <= MAX_SIDE && 0 <= data.n
    modifies C
    ensures AllSummed(C, A, B, MortonCodes(data.n, data.start, data.end, 0, data.n))
    ensures KeepsOutside(C, MortonCodes(data.n, data.start, data.end, 0, data.n))
  {
    var n := data.n;
    var i := data.start;
    while i < data.end
      invariant data.start <= i && (i <= data.end || i == data.start)
      invariant AllSummed(C, A, B, MortonCodes(n, data.start, i, 0, n))
      invariant KeepsOutside(C, MortonCodes(n, data.start, i, 0, n))
    {
      label before:
      MortonRow(A, B, C, n, i);
      MortonCodesSplitRows(n, data.start, i, i + 1, 0, n);
      forall p | p in MortonCodes(n, data.start, i, 0, n)
        ensures Summed(C, A, B, p)
      {
        assert old@before(Summed(C, A, B, p));
      }
      i := i + 1;
    }
    if data.end < data.start {
      assert MortonCodes(n, data.start, data.end, 0, n) == {};
    }
  }

  /** For N = 3 the codes of the nine cells that fall below 9 are 0, 1, 2, 3, 4, 6
      and 8: worker_morton never writes C[5] or C[7]. Its guard keeps the writes
      inside the buffer, but only a power-of-two N makes the codes fill it. */
  lemma MortonMissesForThree()
    ensures forall i, j :: 0 <= i < 3 && 0 <= j < 3 ==> MortonIndex(i, j) != 5 && MortonIndex(i, j) != 7
  {
    forall i, j | 0 <= i < 3 && 0 <= j < 3
      ensures MortonIndex(i, j) != 5 && MortonIndex(i, j) != 7
    {
      assert i == 0 || i == 1 || i == 2;
      assert j == 0 || j == 1 || j == 2;
    }
  }

  /** The first row past the bands worker_tiled visits: a band starts at start,
      start + 64, ... while below end and covers 64 rows, so the rows reached run
      up to the first band start at or past end. */
  function TiledStop(start: int, end: int): (stop: int)
    ensures if start < end then end <= stop < end + TILE_SIZE else stop == start
    decreases end - start
  {
    if start < end then TiledStop(start + TILE_SIZE, end) else start
  }

  /** Bands that fit a range of whole 64-row blocks stop exactly at its end. */
  lemma {:induction false} TiledStopAligned(start: int, k: nat)
    ensures TiledStop(start, start + k * TILE_SIZE) == start + k * TILE_SIZE
    decreases k
  {
    if k > 0 {
      TiledStopAligned(start + TILE_SIZE, k - 1);
      assert start + TILE_SIZE + (k - 1) * TILE_SIZE == start + k * TILE_SIZE;
    }
  }

  /** worker_tiled: 64-row bands from start while below end, each cut into 64×64
      tiles; the tile loops are those of add_blocked. Rows [start, TiledStop) below
      N get their sums (a last band may run past end) and no other cell changes. */
  method WorkerTiled(A: array<int>, B: array<int>, C: array<int>, data: ThreadData)
    requires A.Length == B.Length == C.Length == data.n * data.n && C != A && C != B
    requires 0 <= data.start && 0 <= data.n
    modifies C
    ensures forall i, j :: data.start <= i < TiledStop(data.start, data.end) && i < data.n && 0 <= j < data.n ==>
      SumAt(C, A, B, data.n, i, j)
    ensures UnchangedOutside(C, data.n, data.start, TiledStop(data.start, data.end), 0, data.n)
  {
    var n := data.n;
    var ii := data.start;
    while ii < data.end
      invariant data.start <= ii
      invariant TiledStop(ii, data.end) == TiledStop(data.start, data.end)
      invariant forall i, j :: data.start <= i < ii && i < n && 0 <= j < n ==> SumAt(C, A, B, n, i, j)
      invariant UnchangedOutside(C, n, data.start, ii, 0, n)
    {
      var jj := 0;
      while jj < n
        invariant 0 <= jj
        invariant forall i, j :: data.start <= i < ii && i < n && 0 <= j < n ==> SumAt(C, A, B, n, i, j)
        invariant forall i, j :: ii <= i < ii + TILE_SIZE && i < n && 0 <= j < jj && j < n ==> SumAt(C, A, B, n, i, j)
        invariant forall i, j :: 0 <= i < n && 0 <= j < n && !(data.start <= i < ii) && !(ii <= i < ii + TILE_SIZE && j < jj) ==>
          C[Idx(n, i, j)] == old(C[Idx(n, i, j)])
      {
        label before:
        AddTile(A, B, C, n, ii, jj);
        forall i, j | (data.start <= i < ii || (ii <= i < ii + TILE_SIZE && j < jj)) && i < n && 0 <= j < n
          ensures SumAt(C, A, B, n, i, j)
        {
          assert old@before(SumAt(C, A, B, n, i, j));
        }
        jj := jj + TILE_SIZE;
      }
      ii := ii + TILE_SIZE;
    }
  }

  /** The ThreadData add_row_major_pthread, add_col_major_pthread,
      add_numpy_pthread and add_morton_pthread fill in for thread t: chunk =
      N / num_threads, thread t gets [t*chunk, (t+1)*chunk), the last one ending
      at N. */
  function BlockData(n: nat, numThreads: nat, t: nat, sRow: int, sCol: int): (d: ThreadData)
    requires 1 <= numThreads && t < numThreads
    ensures d.n == n && d.sRow == sRow && d.sCol == sCol
    ensures Range(d.start, d.end) == BlockRange(n, numThreads, t)
  {
    var chunk := n / numThreads;
    ThreadData(t * chunk, if t == numThreads - 1 then n else (t + 1) * chunk, n, sRow, sCol)
  }

  /** add_row_major_pthread with its threads run one after the other: the row
      blocks abut from 0 to N, so C ends up as A + B. */
  method AddRowMajorPthread(A: array<int>, B: array<int>, C: array<int>, n: nat, numThreads: nat)
    requires A.Length == B.Length == C.Length == n * n && C != A && C != B
    requires 1 <= numThreads
    modifies C
    ensures C[..] == Plus(A[..], B[..])
  {
    ghost var done := 0;
    for t := 0 to numThreads
      invariant done == if t == 0 then 0 else BlockRange(n, numThreads, t - 1).hi
      invariant 0 <= done <= n
      invariant forall i, j :: 0 <= i < done && 0 <= j < n ==> SumAt(C, A, B, n, i, j)
    {
      var data := BlockData(n, numThreads, t, 0, 0);
      BlockRangeFollows(n, numThreads, t);
      label before:
      WorkerRowMajor(A, B, C, data);
      forall i, j | 0 <= i < done && 0 <= j < n
        ensures SumAt(C, A, B, n, i, j)
      {
        assert old@before(SumAt(C, A, B, n, i, j));
      }
      done := data.end;
    }
    if numThreads > 0 {
      BlockRangeFollows(n, numThreads, numThreads - 1);
    }
    AllSums(C, A, B, n);
  }

  /** add_col_major_pthread with its threads run one after the other: the column
      blocks abut from 0 to N, so C ends up as A + B. */
  method AddColMajorPthread(A: array<int>, B: array<int>, C: array<int>, n: nat, numThreads: nat)
    requires A.Length == B.Length == C.Length == n * n && C != A && C != B
    requires 1 <= numThreads
    modifies C
    ensures C[..] == Plus(A[..], B[..])
  {
    ghost var done := 0;
    for t := 0 to numThreads
      invariant done == if t == 0 then 0 else BlockRange(n, numThreads, t - 1).hi
      invariant 0 <= done <= n
      invariant forall i, j :: 0 <= i < n && 0 <= j < done ==> SumAt(C, A, B, n, i, j)
    {
      var data := BlockData(n, numThreads, t, 0, 0);
      BlockRangeFollows(n, numThreads, t);
      label before:
      WorkerColMajor(A, B, C, data);
      forall i, j | 0 <= i < n && 0 <= j < done
        ensures SumAt(C, A, B, n, i, j)
      {
        assert old@before(SumAt(C, A, B, n, i, j));
      }
      done := data.end;
    }
    BlockRangeFollows(n, numThreads, numThreads - 1);
    AllSums(C, A, B, n);
  }

  /** The strides keep every cell of the n×n matrix inside buffers of length len. */
  ghost predicate StridesFit(n: nat, sRow: int, sCol: int, len: int) {
    forall i, j :: 0 <= i < n && 0 <= j < n ==> 0 <= Strided(i, j, sRow, sCol) < len
  }

  /** add_numpy_pthread with its threads run one after the other: every cell's
      strided offset holds its sum; with the strides main passes (N, 1) that is
      C = A + B. */
  method AddNumpyPthread(A: array<int>, B: array<int>, C: array<int>, n: nat, sRow: int, sCol: int, numThreads: nat)
    requires A.Length == B.Length == C.Length == n * n && C != A && C != B
    requires 1 <= numThreads && StridesFit(n, sRow, sCol, C.Length)
    modifies C
    ensures forall i, j :: 0 <= i < n && 0 <= j < n ==> Summed(C, A, B, Strided(i, j, sRow, sCol))
    ensures sRow == n && sCol == 1 ==> C[..] == Plus(A[..], B[..])
  {
    ghost var done := 0;
    for t := 0 to numThreads
      invariant done == if t == 0 then 0 else BlockRange(n, numThreads, t - 1).hi
      invariant 0 <= done <= n
      invariant forall i, j :: 0 <= i < done && 0 <= j < n ==> Summed(C, A, B, Strided(i, j, sRow, sCol))
    {
      var data := BlockData(n, numThreads, t, sRow, sCol);
      BlockRangeFollows(n, numThreads, t);
      label before:
      WorkerNumpy(A, B, C, data);
      forall i, j | 0 <= i < done && 0 <= j < n
        ensures Summed(C, A, B, Strided(i, j, sRow, sCol))
      {
        assert old@before(Summed(C, A, B, Strided(i, j, sRow, sCol)));
      }
      done := data.end;
    }
    BlockRangeFollows(n, numThreads, numThreads - 1);
    if sRow == n && sCol == 1 {
      forall i, j | 0 <= i < n && 0 <= j < n
        ensures SumAt(C, A, B, n, i, j)
      {
        assert Summed(C, A, B, Strided(i, j, sRow, sCol));
      }
      AllSums(C, A, B, n);
    }
  }

  /** add_morton_pthread with its threads run one after the other: every cell
      whose Morton code is below N*N has its sum at that code, and no offset that
      is not such a code changes. */
  method AddMortonPthread(A: array<int>, B: array<int>, C: array<int>, n: nat, numThreads: nat)
    requires A.Length == B.Length == C.Length == n * n && C != A && C != B
    requires 1 <= numThreads && n <= MAX_SIDE
    modifies C
    ensures forall i, j :: 0 <= i < n && 0 <= j < n && MortonIndex(i, j) < n * n ==> Summed(C, A, B, MortonIndex(i, j))
    ensures AllSummed(C, A, B, MortonCodes(n, 0, n, 0, n))
    ensures KeepsOutside(C, MortonCodes(n, 0, n, 0, n))
  {
    ghost var done := 0;
    for t := 0 to numThreads
      invariant done == if t == 0 then 0 else BlockRange(n, numThreads, t - 1).hi
      invariant 0 <= done <= n
      invariant AllSummed(C, A, B, MortonCodes(n, 0, done, 0, n))
      invariant KeepsOutside(C, MortonCodes(n, 0, done, 0, n))
    {
      var data := BlockData(n, numThreads, t, 0, 0);
      BlockRangeFollows(n, numThreads, t);
      label before:
      WorkerMorton(A, B, C, data);
      MortonCodesSplitRows(n, 0, done, data.end, 0, n);
      forall p | p in MortonCodes(n, 0, done, 0, n)
        ensures Summed(C, A, B, p)
      {
        assert old@before(Summed(C, A, B, p));
      }
      done := data.end;
    }
    BlockRangeFollows(n, numThreads, numThreads - 1);
    forall i, j | 0 <= i < n && 0 <= j < n && MortonIndex(i, j) < n * n
      ensures Summed(C, A, B, MortonIndex(i, j))
    {
      MortonCodesHold(n, i, j);
    }
  }

  /** num_blocks of add_tiled_pthread: the fewest 64-row blocks that cover N rows. */
  function NumBlocks(n: nat): (b: nat)
    ensures n <= b * TILE_SIZE && (b == 0 || (b - 1) * TILE_SIZE < n)
  {
    (n + TILE_SIZE - 1) / TILE_SIZE
  }

  /** blocks_per_thread of add_tiled_pthread: num_blocks / num_threads, raised to 1
      when there are more threads than blocks. Every thread gets at least one
      block, and the threads' shares never add up to more than num_blocks unless
      the count was raised. */
  function BlocksPerThread(n: nat, numThreads: nat): (b: nat)
    requires 1 <= numThreads
    ensures 1 <= b
    ensures b * numThreads <= NumBlocks(n) || (b == 1 && NumBlocks(n) < numThreads)
  {
    var q := NumBlocks(n) / numThreads;
    if q == 0 then 1 else q
  }

  /** The ThreadData add_tiled_pthread fills in for thread t: the blocks from
      t * blocks_per_thread on, blocks_per_thread of them (the last thread's run
      up to num_blocks), as rows, with the end cut at N. */
  function TiledData(n: nat, numThreads: nat, t: nat): (d: ThreadData)
    requires 1 <= numThreads && t < numThreads
    ensures d.n == n && 0 <= d.start && d.end <= n && d.sRow == 0 && d.sCol == 0
  {
    var bpt := BlocksPerThread(n, numThreads);
    var endBlock := if t == numThreads - 1 then NumBlocks(n) else t * bpt + bpt;
    var end := endBlock * TILE_SIZE;
    ThreadData(t * bpt * TILE_SIZE, if end > n then n else end, n, 0, 0)
  }

  /** Thread t of add_tiled_pthread is started and row i lies in its range. */
  predicate TiledOwns(n: nat, numThreads: nat, t: nat, i: int)
    requires 1 <= numThreads && t < numThreads
  {
    var d := TiledData(n, numThreads, t);
    d.start < n && d.start <= i < d.end
  }

  /** The cuts of the tiled split: thread k's first row cut at N, and N for
      k = num_threads. */
  function TiledCuts(n: nat, numThreads: nat): (cuts: seq<int>)
    requires 1 <= numThreads
    ensures |cuts| == numThreads + 1
  {
    seq(numThreads + 1, k requires 0 <= k <= numThreads =>
      if k == numThreads then n else Min(TiledData(n, numThreads, k).start, n))
  }

  /** The tiled cuts start at 0, end at N and never decrease, and thread t owns
      row i exactly when i lies between cut t and cut t + 1. */
  lemma TiledCutsShape(n: nat, numThreads: nat)
    requires 1 <= numThreads
    ensures TiledCuts(n, numThreads)[0] == 0 && TiledCuts(n, numThreads)[numThreads] == n
    ensures NonDecreasing(TiledCuts(n, numThreads))
    ensures forall t, i :: 0 <= t < numThreads ==>
      (TiledOwns(n, numThreads, t, i) <==> TiledCuts(n, numThreads)[t] <= i < TiledCuts(n, numThreads)[t + 1])
  {
    var cuts := TiledCuts(n, numThreads);
    var bpt := BlocksPerThread(n, numThreads);
    forall k, k' | 0 <= k <= k' < |cuts|
      ensures cuts[k] <= cuts[k']
    {
      if k' < numThreads {
        MulLe(k, k', bpt);
      }
    }
    forall t, i | 0 <= t < numThreads
      ensures TiledOwns(n, numThreads, t, i) <==> cuts[t] <= i < cuts[t + 1]
    {
      var d := TiledData(n, numThreads, t);
      if d.start < n {
        if t < numThreads - 1 {
          assert t * bpt + bpt == (t + 1) * bpt;
        }
        assert d.end == cuts[t + 1];
      } else {
        assert cuts[t] == n && cuts[t + 1] <= cuts[numThreads];
      }
    }
  }

  /** Cuts t and t + 1 bound a started thread's range and are both N for a thread
      that is not started. */
  lemma TiledCutsAt(n: nat, numThreads: nat, t: nat)
    requires 1 <= numThreads && t < numThreads
    ensures var d := TiledData(n, numThreads, t);
      if d.start < n then TiledCuts(n, numThreads)[t] == d.start && TiledCuts(n, numThreads)[t + 1] == d.end
      else TiledCuts(n, numThreads)[t] == n == TiledCuts(n, numThreads)[t + 1]
  {
    var cuts := TiledCuts(n, numThreads);
    var bpt := BlocksPerThread(n, numThreads);
    var d := TiledData(n, numThreads, t);
    if t < numThreads - 1 {
      assert t * bpt + bpt == (t + 1) * bpt;
      assert t * bpt <= (t + 1) * bpt;
      MulLe(t * bpt, (t + 1) * bpt, TILE_SIZE);
    }
  }

  /** add_tiled_pthread's ranges follow each other: thread 0 starts at row 0, each
      thread's range ends where the next one starts (cut at N), and a started last
      thread ends at N. */
  lemma TiledRangesAbut(n: nat, numThreads: nat)
    requires 1 <= numThreads
    ensures TiledData(n, numThreads, 0).start == 0
    ensures forall t :: 0 <= t < numThreads - 1 ==>
      TiledData(n, numThreads, t).end == Min(TiledData(n, numThreads, t + 1).start, n)
    ensures TiledData(n, numThreads, numThreads - 1).start < n ==> TiledData(n, numThreads, numThreads - 1).end == n
  {
    var bpt := BlocksPerThread(n, numThreads);
    forall t | 0 <= t < numThreads - 1
      ensures TiledData(n, numThreads, t).end == Min(TiledData(n, numThreads, t + 1).start, n)
    {
      assert t * bpt + bpt == (t + 1) * bpt;
    }
  }

  /** Every row below N lies in the range of exactly one thread add_tiled_pthread
      starts, whatever the thread count. */
  lemma TiledExactlyOnce(n: nat, numThreads: nat, i: int) returns (t: nat)
    requires 1 <= numThreads && 0 <= i < n
    ensures t < numThreads && TiledOwns(n, numThreads, t, i)
    ensures forall t' :: 0 <= t' < numThreads && TiledOwns(n, numThreads, t', i) ==> t' == t
  {
    TiledCutsShape(n, numThreads);
    t := Owner(TiledCuts(n, numThreads), i);
  }

  /** A started thread's range is not empty, and its bands, cut at N, reach
      exactly its end: the range is whole blocks or ends at N. */
  lemma TiledWorkerRows(n: nat, numThreads: nat, t: nat)
    requires 1 <= numThreads && t < numThreads && TiledData(n, numThreads, t).start < n
    ensures TiledData(n, numThreads, t).start < TiledData(n, numThreads, t).end
    ensures Min(TiledStop(TiledData(n, numThreads, t).start, TiledData(n, numThreads, t).end), n) == TiledData(n, numThreads, t).end
  {
    var d := TiledData(n, numThreads, t);
    var bpt := BlocksPerThread(n, numThreads);
    var nb := NumBlocks(n);
    assert d.start == t * bpt * TILE_SIZE;
    if t == numThreads - 1 {
      if bpt * numThreads <= nb {
        assert t * bpt <= nb by {
          MulLe(t, numThreads, bpt);
        }
        assert d.start <= nb * TILE_SIZE;
      } else {
        assert false;
      }
      assert d.end == n;
    } else {
      assert d.end == Min((t * bpt + bpt) * TILE_SIZE, n);
      if d.end < n {
        assert d.end == d.start + bpt * TILE_SIZE;
        TiledStopAligned(d.start, bpt);
      }
    }
  }

  /** One pass of add_tiled_pthread's thread-creation loop: the ThreadData for the
      blocks from current_block on, the worker started only when its first row is
      below N, and the block the next thread starts at. The rows below cut t hold
      their sums before, and those below cut t + 1 after; only the rows between the
      two cuts change. */
  method TiledThread(A: array<int>, B: array<int>, C: array<int>, n: nat, numThreads: nat, t: nat,
                     numBlocks: nat, blocksPerThread: nat, currentBlock: nat)
      returns (data: ThreadData, started: bool, nextBlock: nat)
    requires A.Length == B.Length == C.Length == n * n && C != A && C != B
    requires 1 <= numThreads && t < numThreads
    requires numBlocks == NumBlocks(n) && blocksPerThread == BlocksPerThread(n, numThreads)
    requires currentBlock == t * blocksPerThread
    requires forall i, j :: 0 <= i < TiledCuts(n, numThreads)[t] && 0 <= j < n ==> SumAt(C, A, B, n, i, j)
    modifies C
    ensures data == TiledData(n, numThreads, t) && (started <==> data.start < n)
    ensures t < numThreads - 1 ==> nextBlock == (t + 1) * blocksPerThread
    ensures forall i, j :: 0 <= i < TiledCuts(n, numThreads)[t + 1] && 0 <= j < n ==> SumAt(C, A, B, n, i, j)
    ensures UnchangedOutside(C, n, TiledCuts(n, numThreads)[t], TiledCuts(n, numThreads)[t + 1], 0, n)
  {
    var startBlock := currentBlock;
    var endBlock := startBlock + blocksPerThread;
    if t == numThreads - 1 {
      endBlock := numBlocks;
    }
    data := ThreadData(startBlock * TILE_SIZE, endBlock * TILE_SIZE, n, 0, 0);
    if data.end > n {
      data := data.(end := n);
    }
    assert data == TiledData(n, numThreads, t);
    TiledCutsAt(n, numThreads, t);
    started := data.start < n;
    if started {
      TiledWorkerRows(n, numThreads, t);
      WorkerTiled(A, B, C, data);
      forall i, j | 0 <= i < data.end && 0 <= j < n
        ensures SumAt(C, A, B, n, i, j)
      {
        if i < data.start {
          assert old(SumAt(C, A, B, n, i, j));
        }
      }
    }
    nextBlock := endBlock;
  }

  /** add_tiled_pthread with its threads run one after the other. The rows are cut
      into 64-row blocks, blocks_per_thread = num_blocks / num_threads (at least 1)
      go to each thread and the last thread takes the blocks up to num_blocks; a
      thread whose first row is not below N is not started. The ThreadData of
      thread t is TiledData(N, num_threads, t), whose started ranges cover every row
      exactly once (TiledExactlyOnce), and C ends up as A + B. */
  method AddTiledPthread(A: array<int>, B: array<int>, C: array<int>, n: nat, numThreads: nat)
      returns (threadData: seq<ThreadData>, started: seq<bool>)
    requires A.Length == B.Length == C.Length == n * n && C != A && C != B
    requires 1 <= numThreads
    modifies C
    ensures |threadData| == numThreads && |started| == numThreads
    ensures forall t :: 0 <= t < numThreads ==>
      threadData[t] == TiledData(n, numThreads, t) && (started[t] <==> threadData[t].start < n)
    ensures C[..] == Plus(A[..], B[..])
  {
    var numBlocks := (n + TILE_SIZE - 1) / TILE_SIZE;
    var blocksPerThread := numBlocks / numThreads;
    if blocksPerThread == 0 {
      blocksPerThread := 1;
    }
    assert numBlocks == NumBlocks(n) && blocksPerThread == BlocksPerThread(n, numThreads);
    threadData, started := [], [];
    var currentBlock := 0;
    for t := 0 to numThreads
      invariant |threadData| == t && |started| == t
      invariant t < numThreads ==> currentBlock == t * blocksPerThread
      invariant forall t' :: 0 <= t' < t ==>
        threadData[t'] == TiledData(n, numThreads, t') && (started[t'] <==> threadData[t'].start < n)
      invariant forall i, j :: 0 <= i < TiledCuts(n, numThreads)[t] && 0 <= j < n ==> SumAt(C, A, B, n, i, j)
    {
      var data, isStarted;
      data, isStarted, currentBlock := TiledThread(A, B, C, n, numThreads, t, numBlocks, blocksPerThread, currentBlock);
      threadData := threadData + [data];
      started := started + [isStarted];
    }
    AllSums(C, A, B, n);
  }

  /** main for one size and one thread count: A = 1 and B = 2 everywhere, then the
      five drivers one after the other on the same C (the numpy driver with strides
      N and 1); C ends up all threes. */
  method RunSize(n: nat, numThreads: nat) returns (C: array<int>)
    requires 1 <= numThreads && n <= MAX_SIDE
    ensures C.Length == n * n && forall k :: 0 <= k < n * n ==> C[k] == 3
  {
    var A := new int[n * n];
    var B := new int[n * n];
    C := new int[n * n];
    for k := 0 to n * n
      invariant forall k' :: 0 <= k' < k ==> A[k'] == 1 && B[k'] == 2
    {
      A[k], B[k] := 1, 2;
    }
    AddRowMajorPthread(A, B, C, n, numThreads);
    AddColMajorPthread(A, B, C, n, numThreads);
    assert forall i, j :: 0 <= i < n && 0 <= j < n ==> 0 <= Strided(i, j, n, 1) < C.Length;
    AddNumpyPthread(A, B, C, n, n, 1, numThreads);
    label beforeMorton:
    AddMortonPthread(A, B, C, n, numThreads);
    forall k | 0 <= k < n * n
      ensures C[k] == A[k] + B[k]
    {
      assert old@beforeMorton(C[k]) == A[k] + B[k];
    }
    var threadData, started := AddTiledPthread(A, B, C, n, numThreads);
    assert forall k :: 0 <= k < n * n ==> C[..][k] == Plus(A[..], B[..])[k];
  }
}
