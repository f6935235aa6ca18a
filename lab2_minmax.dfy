/** Lab2/prog1.c and Lab2/prog2.c: the minimum and maximum of an int array, found
    sequentially and by workers that each scan one block of the array and whose
    results are then combined. */
module MinMax {

  import opened Arith
  import opened Split
  import opened Reduce

  /** find_min_max_thread: scans [start, end) from the seeds INT_MAX and INT_MIN. */
  method FindMinMax(arr: array<Int32>, start: int, end: int) returns (localMin: int, localMax: int)
    requires 0 <= start <= end <= arr.Length
    ensures localMin == MinOf(arr[..], start, end) && localMax == MaxOf(arr[..], start, end)
    ensures forall k :: start <= k < end ==> localMin <= arr[k] <= localMax
    ensures start < end ==> exists k :: start <= k < end && arr[k] == localMin
    ensures start < end ==> exists k :: start <= k < end && arr[k] == localMax
    ensures start == end ==> localMin == INT_MAX && localMax == INT_MIN
  {
    localMin, localMax := INT_MAX, INT_MIN;
    for i := start to end
      invariant localMin == MinOf(arr[..], start, i) && localMax == MaxOf(arr[..], start, i)
    {
      if arr[i] < localMin { localMin := arr[i]; }
      if arr[i] > localMax { localMax := arr[i]; }
    }
    MinMaxOfBounds(arr[..], start, end);
  }

  /** The minimum and maximum a worker reports for the range r of s. */
  ghost predicate WorkerResult(s: seq<int>, r: Range, lo: int, hi: int) {
    0 <= r.lo <= r.hi <= |s| && lo == MinOf(s, r.lo, r.hi) && hi == MaxOf(s, r.lo, r.hi)
  }

  /** Runs the workers of the block split of arr among t threads, one after the other
      (their results do not depend on each other), and combines their results in
      thread order onto the seeds, as the join loop does. */
  method SplitMinMax(arr: array<Int32>, t: nat) returns (gMin: int, gMax: int)
    requires 1 <= t
    ensures gMin == MinOf(arr[..], 0, arr.Length) && gMax == MaxOf(arr[..], 0, arr.Length)
  {
    var n := arr.Length;
    var chunk := n / t;
    var localMins := new int[t];
    var localMaxs := new int[t];
    ghost var s := arr[..];
    for tid := 0 to t
      invariant forall u :: 0 <= u < tid ==> WorkerResult(s, BlockRange(n, t, u), localMins[u], localMaxs[u])
    {
      var start := tid * chunk;
      var end := if tid == t - 1 then n else (tid + 1) * chunk;
      BlockRangeIsChunk(n, t, tid);
      assert BlockRange(n, t, tid) == Range(start, end);
      var lo, hi := FindMinMax(arr, start, end);
      localMins[tid], localMaxs[tid] := lo, hi;
    }
    ghost var cuts := BlockCuts(n, t);
    BlockChunkCuts(n, t);
    forall u | 0 <= u < t
      ensures localMins[u] == MinOf(s, cuts[u], cuts[u + 1]) && localMaxs[u] == MaxOf(s, cuts[u], cuts[u + 1])
    {
      BlockRangeIsChunk(n, t, u);
      assert WorkerResult(s, BlockRange(n, t, u), localMins[u], localMaxs[u]);
    }
    gMin, gMax := CombineLocal(localMins, localMaxs, s, cuts);
    CombineWhole(s, cuts, t);
  }

  /** The join loop: folds the per-worker results, in worker order, into the seeds. */
  method CombineLocal(localMins: array<int>, localMaxs: array<int>, ghost s: seq<int>, ghost cuts: seq<int>)
    returns (gMin: int, gMax: int)
    requires ChunkCuts(cuts, |s|) && localMins.Length == localMaxs.Length == |cuts| - 1
    requires forall u :: 0 <= u < localMins.Length ==>
      localMins[u] == MinOf(s, cuts[u], cuts[u + 1]) && localMaxs[u] == MaxOf(s, cuts[u], cuts[u + 1])
    ensures gMin == CombineMin(s, cuts, |cuts| - 1) && gMax == CombineMax(s, cuts, |cuts| - 1)
  {
    gMin, gMax := INT_MAX, INT_MIN;
    for tid := 0 to localMins.Length
      invariant gMin == CombineMin(s, cuts, tid) && gMax == CombineMax(s, cuts, tid)
    {
      if localMins[tid] < gMin { gMin := localMins[tid]; }
      if localMaxs[tid] > gMax { gMax := localMaxs[tid]; }
    }
  }

  /** run_comparison (Lab2/prog1.c): the sequential scan and the 8-way split report
      the same minimum and maximum, which are those of the whole array. */
  method RunComparison(arr: array<Int32>) returns (threadMin: int, threadMax: int, seqMin: int, seqMax: int)
    ensures seqMin == MinOf(arr[..], 0, arr.Length) && seqMax == MaxOf(arr[..], 0, arr.Length)
    ensures threadMin == seqMin && threadMax == seqMax
    ensures forall k :: 0 <= k < arr.Length ==> seqMin <= arr[k] <= seqMax
    ensures arr.Length > 0 ==> exists k :: 0 <= k < arr.Length && arr[k] == seqMin
    ensures arr.Length > 0 ==> exists k :: 0 <= k < arr.Length && arr[k] == seqMax
  {
    seqMin, seqMax := INT_MAX, INT_MIN;
    for i := 0 to arr.Length
      invariant seqMin == MinOf(arr[..], 0, i) && seqMax == MaxOf(arr[..], 0, i)
    {
      if arr[i] < seqMin { seqMin := arr[i]; }
      if arr[i] > seqMax { seqMax := arr[i]; }
    }
    MinMaxOfBounds(arr[..], 0, arr.Length);
    threadMin, threadMax := SplitMinMax(arr, 8);
  }

  /** run_bulk_experiment (Lab2/prog2.c) for one array: the combined g_min and g_max
      are the minimum and maximum of the whole array for every thread count. */
  method RunBulkExperiment(arr: array<Int32>, numThreads: nat) returns (gMin: int, gMax: int)
    requires 1 <= numThreads
    ensures forall k :: 0 <= k < arr.Length ==> gMin <= arr[k] <= gMax
    ensures arr.Length > 0 ==> exists k :: 0 <= k < arr.Length && arr[k] == gMin
    ensures arr.Length > 0 ==> exists k :: 0 <= k < arr.Length && arr[k] == gMax
    ensures arr.Length == 0 ==> gMin == INT_MAX && gMax == INT_MIN
  {
    gMin, gMax := SplitMinMax(arr, numThreads);
    MinMaxOfBounds(arr[..], 0, arr.Length);
  }

  /** The thread counts main (Lab2/prog2.c) tries: 1, then 5, 10, ..., 100. */
  method ThreadCountSweep() returns (counts: seq<int>)
    ensures |counts| == 21 && counts[0] == 1
    ensures forall k :: 1 <= k < 21 ==> counts[k] == 5 * k
  {
    counts := [];
    var tCount := 1;
    while tCount <= 100
      invariant tCount == (if |counts| == 0 then 1 else 5 * |counts|)
      invariant |counts| <= 21
      invariant |counts| > 0 ==> counts[0] == 1
      invariant forall k :: 1 <= k < |counts| ==> counts[k] == 5 * k
      decreases 100 - tCount
    {
      counts := counts + [tCount];
      tCount := if tCount == 1 then 5 else tCount + 5;
    }
  }
}
