/** Lab4/prog.c, the five ways the benchmark hands the rows of A·B to its threads.
    The static strategies give each thread a fixed set of rows; the dynamic ones
    let threads claim rows from the shared `global_row_counter` under
    `queue_mutex`. Threads run one after another, and every locked claim is one
    atomic step of the shared counter, so the counter's invariant holds whatever
    order the claims come in. */
module SparseSchedules {

  import opened Arith
  import opened Dense
  import opened Split
  import opened SparseCsr
  import opened SparseRows

  /** Base chunk of the dynamic strategies. */
  const CHUNK_SIZE: nat := 64

  /** The thread counts every strategy is run with. */
  const THREAD_COUNTS: seq<nat> := [1, 2, 4, 8, 16]

  /** compute_row for every row of [lo, hi), in order: those rows of C gain their
      row of the product; the other rows are left as they were. */
  method ComputeRows(lo: int, hi: int, A: CsrMatrix, B: CsrMatrix, C: array<int>)
    requires Operands(A, B, C) && 0 <= lo <= hi <= N
    modifies C
    ensures forall p :: 0 <= p < N * N ==>
      C[p] == if lo <= Row(N, p) < hi then old(C[p]) + DotAt(Expand(A), Expand(B), N, p, N) else old(C[p])
  {
    for i := lo to hi
      invariant forall p :: 0 <= p < N * N ==>
        C[p] == if lo <= Row(N, p) < i then old(C[p]) + DotAt(Expand(A), Expand(B), N, p, N) else old(C[p])
    {
      ComputeRow(i, A, B, C);
    }
  }

  // ---------------------------------------------------------------------------
  // Static strategies

  /** method_static_block: thread tid computes the rows of BlockRange(rows,
      threads, tid), chunk = rows / threads rows from tid * chunk, with the last
      thread running on to the last row. */
  method StaticBlockWorker(tid: nat, threads: nat, A: CsrMatrix, B: CsrMatrix, C: array<int>)
    requires Operands(A, B, C) && tid < threads
    modifies C
    ensures forall p :: 0 <= p < N * N ==>
      C[p] == if BlockRange(A.rows, threads, tid).Contains(Row(N, p)) then old(C[p]) + DotAt(Expand(A), Expand(B), N, p, N)
              else old(C[p])
  {
    var chunk := A.rows / threads;
    var start := tid * chunk;
    var end := if tid == threads - 1 then A.rows else start + chunk;
    BlockRangeFollows(A.rows, threads, tid);
    ComputeRows(start, end, A, B, C);
  }

  /** method_static_cyclic: thread tid computes rows tid, tid + threads,
      tid + 2*threads, ..., the rows whose remainder modulo threads is tid. */
  method StaticCyclicWorker(tid: nat, threads: nat, A: CsrMatrix, B: CsrMatrix, C: array<int>)
    requires Operands(A, B, C) && tid < threads
    modifies C
    ensures forall p :: 0 <= p < N * N ==>
      C[p] == if Row(N, p) % threads == tid then old(C[p]) + DotAt(Expand(A), Expand(B), N, p, N) else old(C[p])
  {
    var i := tid;
    ModSmall(tid, threads);
    forall p | 0 <= p < N * N && Row(N, p) < tid
      ensures Row(N, p) % threads != tid
    {
      ModSmall(Row(N, p), threads);
    }
    while i < A.rows
      invariant i % threads == tid
      invariant forall p :: 0 <= p < N * N ==>
        C[p] == if Row(N, p) % threads == tid && Row(N, p) < i then old(C[p]) + DotAt(Expand(A), Expand(B), N, p, N)
                else old(C[p])
      decreases A.rows - i
    {
      ComputeRow(i, A, B, C);
      forall p | 0 <= p < N * N && Row(N, p) % threads == tid && i <= Row(N, p) < i + threads
        ensures Row(N, p) == i
      {
        ModGap(Row(N, p), i, threads);
      }
      ModAddModulus(i, threads);
      i := i + threads;
    }
  }

  // ---------------------------------------------------------------------------
  // The shared row counter of the dynamic strategies

  /** The chunk method_dynamic_guided claims when remaining rows are left:
      remaining / (2 * threads), raised to CHUNK_SIZE and then cut to remaining. */
  function GuidedChunk(remaining: int, threads: nat): (chunk: int)
    requires 1 <= remaining && 1 <= threads
    ensures 1 <= chunk <= remaining
  {
    var c := remaining / (2 * threads);
    var c' := if c < CHUNK_SIZE then CHUNK_SIZE else c;
    if c' > remaining then remaining else c'
  }

  /** A guided chunk takes all that remains exactly when at most CHUNK_SIZE rows
      remain, and otherwise it is CHUNK_SIZE or the share remaining / (2 * threads),
      whichever is larger. */
  lemma GuidedChunkBounds(remaining: int, threads: nat)
    requires 1 <= remaining && 1 <= threads
    ensures GuidedChunk(remaining, threads) == remaining <==> remaining <= CHUNK_SIZE
    ensures remaining > CHUNK_SIZE ==>
      CHUNK_SIZE <= GuidedChunk(remaining, threads) &&
      (GuidedChunk(remaining, threads) == CHUNK_SIZE || GuidedChunk(remaining, threads) == remaining / (2 * threads))
    ensures remaining > CHUNK_SIZE ==> GuidedChunk(remaining, threads) <= Max(CHUNK_SIZE, remaining / 2)
  {
    DivByLarger(remaining, 2, 2 * threads);
  }

  /** global_row_counter: the next row to hand out. The ghost log `handed` lists
      the rows handed out so far, in the order they were claimed. */
  class RowCounter {
    var counter: int
    const rows: nat
    ghost var handed: seq<int>

    /** The rows handed out are 0, 1, ..., in order, each once, and none at or
        past `rows`, however far the counter has run. */
    ghost predicate Valid()
      reads this
    {
      0 <= counter && handed == Iota(0, Min(counter, rows))
    }

    constructor (rows: nat)
      ensures Valid() && this.rows == rows && counter == 0 && handed == []
    {
      this.rows := rows;
      counter := 0;
      handed := [];
    }

    /** `global_row_counter = 0` before each test. */
    method Reset()
      modifies this
      ensures Valid() && counter == 0 && handed == []
    {
      counter := 0;
      handed := [];
    }

    /** The locked step of method_dynamic_fine: no row when the counter has
        reached `rows`, otherwise the counter's row, moving the counter on by one. */
    method ClaimRow() returns (r: int, ok: bool)
      requires Valid()
      modifies this
      ensures Valid()
      ensures ok <==> old(counter) < rows
      ensures ok ==> r == old(counter) && counter == old(counter) + 1 && handed == old(handed) + [r]
      ensures !ok ==> counter == old(counter) && handed == old(handed)
    {
      if counter >= rows {
        return 0, false;
      }
      r := counter;
      counter := counter + 1;
      handed := handed + [r];
      ok := true;
    }

    /** The locked step of method_dynamic_chunk: no rows when the counter has
        reached `rows`, otherwise CHUNK_SIZE rows from the counter, which may run
        past `rows`; only the rows below `rows` are handed out. */
    method ClaimChunk() returns (start: int, ok: bool)
      requires Valid()
      modifies this
      ensures Valid()
      ensures ok <==> old(counter) < rows
      ensures ok ==> start == old(counter) && counter == old(counter) + CHUNK_SIZE &&
                     handed == old(handed) + Iota(start, Min(start + CHUNK_SIZE, rows))
      ensures !ok ==> counter == old(counter) && handed == old(handed)
    {
      if counter >= rows {
        return 0, false;
      }
      start := counter;
      counter := counter + CHUNK_SIZE;
      IotaAppend(0, start, Min(start + CHUNK_SIZE, rows));
      handed := handed + Iota(start, Min(start + CHUNK_SIZE, rows));
      ok := true;
    }

    /** The locked step of method_dynamic_guided: no rows when none remain,
        otherwise a guided chunk from the counter, which never runs past `rows`. */
    method ClaimGuided(threads: nat) returns (start: int, chunk: int, ok: bool)
      requires Valid() && counter <= rows && 1 <= threads
      modifies this
      ensures Valid() && counter <= rows
      ensures ok <==> old(counter) < rows
      ensures ok ==> start == old(counter) && chunk == GuidedChunk(rows - start, threads) &&
                     counter == start + chunk && handed == old(handed) + Iota(start, start + chunk)
      ensures !ok ==> counter == old(counter) && handed == old(handed)
    {
      var remaining := rows - counter;
      if remaining <= 0 {
        return 0, 0, false;
      }
      chunk := GuidedChunk(remaining, threads);
      GuidedChunkBounds(remaining, threads);
      start := counter;
      counter := counter + chunk;
      IotaAppend(0, start, start + chunk);
      handed := handed + Iota(start, start + chunk);
      ok := true;
    }
  }

  /** Once the counter has reached `rows`, whatever claims led there, every row
      has been handed out exactly once. */
  lemma HandedExactlyOnce(q: RowCounter)
    requires q.Valid() && q.counter >= q.rows
    ensures ExactlyOnce(q.handed, q.rows)
  {
    IotaExactlyOnce(q.rows);
  }

  // ---------------------------------------------------------------------------
  // Dynamic strategies

  /** method_dynamic_fine: claim one row at a time and compute it, until the
      counter has reached the last row. The rows this thread computes are the rows
      its claims append to the log. */
  method DynamicFineWorker(q: RowCounter, A: CsrMatrix, B: CsrMatrix, C: array<int>)
    requires Operands(A, B, C) && q.Valid() && q.rows == N
    modifies q, C
    ensures q.Valid() && q.counter >= N && old(q.counter) <= q.counter
    ensures forall p :: 0 <= p < N * N ==>
      C[p] == if Min(old(q.counter), N) <= Row(N, p) then old(C[p]) + DotAt(Expand(A), Expand(B), N, p, N) else old(C[p])
  {
    var done := false;
    while !done
      invariant q.Valid() && old(q.counter) <= q.counter && (done ==> q.counter >= N)
      invariant forall p :: 0 <= p < N * N ==>
        C[p] == if Min(old(q.counter), N) <= Row(N, p) < Min(q.counter, N)
                then old(C[p]) + DotAt(Expand(A), Expand(B), N, p, N) else old(C[p])
      decreases N - Min(q.counter, N), !done
    {
      var r, ok := q.ClaimRow();
      if ok {
        ComputeRow(r, A, B, C);
      } else {
        done := true;
      }
    }
  }

  /** method_dynamic_chunk: claim CHUNK_SIZE rows at a time and compute those
      below the last row, until the counter has reached the last row. */
  method DynamicChunkWorker(q: RowCounter, A: CsrMatrix, B: CsrMatrix, C: array<int>)
    requires Operands(A, B, C) && q.Valid() && q.rows == N
    modifies q, C
    ensures q.Valid() && q.counter >= N && old(q.counter) <= q.counter
    ensures forall p :: 0 <= p < N * N ==>
      C[p] == if Min(old(q.counter), N) <= Row(N, p) then old(C[p]) + DotAt(Expand(A), Expand(B), N, p, N) else old(C[p])
  {
    var done := false;
    while !done
      invariant q.Valid() && old(q.counter) <= q.counter && (done ==> q.counter >= N)
      invariant forall p :: 0 <= p < N * N ==>
        C[p] == if Min(old(q.counter), N) <= Row(N, p) < Min(q.counter, N)
                then old(C[p]) + DotAt(Expand(A), Expand(B), N, p, N) else old(C[p])
      decreases N - Min(q.counter, N), !done
    {
      var start, ok := q.ClaimChunk();
      if ok {
        var end := if start + CHUNK_SIZE > A.rows then A.rows else start + CHUNK_SIZE;
        ComputeRows(start, end, A, B, C);
      } else {
        done := true;
      }
    }
  }

  /** method_dynamic_guided: claim a guided chunk at a time and compute it, until
      no rows remain. */
  method DynamicGuidedWorker(q: RowCounter, threads: nat, A: CsrMatrix, B: CsrMatrix, C: array<int>)
    requires Operands(A, B, C) && q.Valid() && q.counter <= N && q.rows == N && 1 <= threads
    modifies q, C
    ensures q.Valid() && q.counter == N && old(q.counter) <= q.counter
    ensures forall p :: 0 <= p < N * N ==>
      C[p] == if old(q.counter) <= Row(N, p) then old(C[p]) + DotAt(Expand(A), Expand(B), N, p, N) else old(C[p])
  {
    var done := false;
    while !done
      invariant q.Valid() && old(q.counter) <= q.counter <= N && (done ==> q.counter == N)
      invariant forall p :: 0 <= p < N * N ==>
        C[p] == if old(q.counter) <= Row(N, p) < q.counter
                then old(C[p]) + DotAt(Expand(A), Expand(B), N, p, N) else old(C[p])
      decreases N - q.counter, !done
    {
      var start, chunk, ok := q.ClaimGuided(threads);
      if ok {
        var end := start + chunk;
        ComputeRows(start, end, A, B, C);
      } else {
        done := true;
      }
    }
  }

  // ---------------------------------------------------------------------------
  // One test: reset, then every thread in turn

  datatype Strategy = StaticBlock | DynamicFine | DynamicChunk | StaticCyclic | DynamicGuided

  /** The five strategies in the order the benchmark tests them. */
  const STRATEGIES: seq<Strategy> := [StaticBlock, DynamicFine, DynamicChunk, StaticCyclic, DynamicGuided]

  /** One test of a static strategy: reset C, then run the threads; every row has
      exactly one owner, so C ends up holding the product. */
  method RunStatic(strategy: Strategy, threads: nat, A: CsrMatrix, B: CsrMatrix, C: array<int>)
    requires Operands(A, B, C) && 1 <= threads && (strategy == StaticBlock || strategy == StaticCyclic)
    modifies C
    ensures IsProduct(C[..], Expand(A), Expand(B), N)
  {
    ResetResult(C, N * N);
    if strategy == StaticBlock {
      BlockCutsShape(N, threads);
      for t := 0 to threads
        invariant forall p :: 0 <= p < N * N ==>
          C[p] == if Row(N, p) < BlockCuts(N, threads)[t] then DotAt(Expand(A), Expand(B), N, p, N) else 0
      {
        StaticBlockWorker(t, threads, A, B, C);
      }
    } else {
      for t := 0 to threads
        invariant forall p :: 0 <= p < N * N ==>
          C[p] == if Row(N, p) % threads < t then DotAt(Expand(A), Expand(B), N, p, N) else 0
      {
        StaticCyclicWorker(t, threads, A, B, C);
      }
    }
    ProductFromOffsets(C[..], Expand(A), Expand(B), N);
  }

  /** One test of a dynamic strategy: reset C and the counter, then run the
      threads; the first drains the counter and the others find it drained. Every
      row is handed out exactly once and C ends up holding the product. */
  method RunDynamic(strategy: Strategy, threads: nat, q: RowCounter, A: CsrMatrix, B: CsrMatrix, C: array<int>)
    requires Operands(A, B, C) && q.rows == N && 1 <= threads
    requires strategy == DynamicFine || strategy == DynamicChunk || strategy == DynamicGuided
    modifies q, C
    ensures IsProduct(C[..], Expand(A), Expand(B), N)
    ensures q.Valid() && ExactlyOnce(q.handed, N)
  {
    ResetResult(C, N * N);
    q.Reset();
    for t := 0 to threads
      invariant q.Valid() && q.rows == N && (t > 0 ==> q.counter >= N)
      invariant strategy == DynamicGuided ==> q.counter <= N
      invariant forall p :: 0 <= p < N * N ==>
        C[p] == if Row(N, p) < Min(q.counter, N) then DotAt(Expand(A), Expand(B), N, p, N) else 0
    {
      match strategy {
        case DynamicFine => DynamicFineWorker(q, A, B, C);
        case DynamicChunk => DynamicChunkWorker(q, A, B, C);
        case DynamicGuided => DynamicGuidedWorker(q, threads, A, B, C);
      }
    }
    HandedExactlyOnce(q);
    ProductFromOffsets(C[..], Expand(A), Expand(B), N);
  }

  /** main: convert both dense inputs to CSR, then test every strategy with every
      thread count; after every test C holds the product of the dense inputs. */
  method Benchmark(matA: array<int>, matB: array<int>, C: array<int>, q: RowCounter)
    requires matA.Length == N * N && matB.Length == N * N && C.Length == N * N && q.rows == N
    requires C != matA && C != matB
    modifies q, C
    ensures IsProduct(C[..], matA[..], matB[..], N)
  {
    var A := ConvertToCsr(matA, N, N);
    var B := ConvertToCsr(matB, N, N);
    CsrOfWellFormed(matA[..], N, N);
    CsrOfWellFormed(matB[..], N, N);
    for s := 0 to |STRATEGIES|
      invariant s > 0 ==> IsProduct(C[..], Expand(A), Expand(B), N)
    {
      var strategy := STRATEGIES[s];
      for ti := 0 to |THREAD_COUNTS|
        invariant s > 0 || ti > 0 ==> IsProduct(C[..], Expand(A), Expand(B), N)
      {
        var threads := THREAD_COUNTS[ti];
        if strategy == StaticBlock || strategy == StaticCyclic {
          RunStatic(strategy, threads, A, B, C);
        } else {
          RunDynamic(strategy, threads, q, A, B, C);
        }
      }
    }
    CsrProduct(C[..], matA[..], matB[..], A, B);
  }
}
