/** Lab3/ptr_vs_idx.c: the sum of an int array computed by workers that each sum one
    block of it, once walking a pointer and once indexing, and the grand total. */
module PtrVsIdx {

  import opened Split
  import opened Reduce

  const SIZE: nat := 500000
  const THREADS: nat := 200

  /** The total announced before the runs. */
  const PRINTED_EXPECTED: int := 1249975000

  /** A worker's block [start, end) and the sum it reports. */
  datatype Data = Data(start: int, end: int, sum: int)

  /** sum_using_pointer: a pointer starts at array + start and advances with i. */
  method SumUsingPointer(arr: array<int>, d: Data) returns (d': Data)
    requires 0 <= d.start <= d.end <= arr.Length
    ensures d' == d.(sum := Sum(arr[..], d.start, d.end))
  {
    var s := 0;
    var ptr := d.start;
    for i := d.start to d.end
      invariant ptr == i
      invariant s == Sum(arr[..], d.start, i)
    {
      s := s + arr[ptr];
      ptr := ptr + 1;
    }
    d' := d.(sum := s);
  }

  /** sum_using_index: the same sum, reading array[i]. */
  method SumUsingIndex(arr: array<int>, d: Data) returns (d': Data)
    requires 0 <= d.start <= d.end <= arr.Length
    ensures d' == d.(sum := Sum(arr[..], d.start, d.end))
  {
    var s := 0;
    for i := d.start to d.end
      invariant s == Sum(arr[..], d.start, i)
    {
      s := s + arr[i];
    }
    d' := d.(sum := s);
  }

  /** The record worker u holds once it has run on the block split of s. */
  ghost predicate Summed(s: seq<int>, n: nat, t: nat, u: nat, d: Data)
    requires 1 <= t && u < t
  {
    var r := BlockRange(n, t, u);
    d.start == r.lo && d.end == r.hi && 0 <= r.lo <= r.hi <= |s| && d.sum == Sum(s, r.lo, r.hi)
  }

  /** One run of either approach in main: fill data[i] with the block split of the
      array among `threads` workers, run the workers one after the other, then add up
      their sums in thread order. The total is the sum of the whole array. */
  method SplitTotal(arr: array<int>, threads: nat, usePointer: bool) returns (total: int)
    requires 1 <= threads
    ensures total == Sum(arr[..], 0, arr.Length)
  {
    var n := arr.Length;
    var data := new Data[threads];
    ghost var s := arr[..];
    var chunk := n / threads;
    for i := 0 to threads
      invariant forall u :: 0 <= u < i ==> Summed(s, n, threads, u, data[u])
    {
      var start := i * chunk;
      var end := if i == threads - 1 then n else (i + 1) * chunk;
      BlockRangeIsChunk(n, threads, i);
      assert BlockRange(n, threads, i) == Range(start, end);
      var d := Data(start, end, 0);
      if usePointer {
        d := SumUsingPointer(arr, d);
      } else {
        d := SumUsingIndex(arr, d);
      }
      data[i] := d;
    }
    total := JoinTotal(data, s, threads);
  }

  /** The join loop: total += data[i].sum in thread order. */
  method JoinTotal(data: array<Data>, ghost s: seq<int>, threads: nat) returns (total: int)
    requires 1 <= threads == data.Length
    requires forall u :: 0 <= u < threads ==> Summed(s, |s|, threads, u, data[u])
    ensures total == Sum(s, 0, |s|)
  {
    ghost var cuts := BlockCuts(|s|, threads);
    BlockChunkCuts(|s|, threads);
    total := 0;
    for i := 0 to threads
      invariant total == CombineSum(s, cuts, i)
    {
      BlockRangeIsChunk(|s|, threads, i);
      assert Summed(s, |s|, threads, i, data[i]);
      total := total + data[i].sum;
    }
    CombineWholeSum(s, cuts, threads);
  }

  /** The sum of an array holding 0, 1, ..., n-1 (Gauss). */
  function ExpectedSum(n: nat): int {
    n * (n - 1) / 2
  }

  lemma {:induction false} GaussSum(s: seq<int>, n: nat)
    requires n <= |s| && forall k :: 0 <= k < n ==> s[k] == k
    ensures Sum(s, 0, n) == ExpectedSum(n)
  {
    if n > 0 {
      GaussSum(s, n - 1);
      assert n * (n - 1) == (n - 1) * (n - 2) + 2 * (n - 1);
    }
  }

  /** The announced total is not the sum of 0, ..., SIZE-1; it is the sum of
      0, ..., 49999, a tenth of SIZE. */
  lemma PrintedExpectedIsForTenthOfSize()
    ensures ExpectedSum(SIZE) == 124999750000
    ensures ExpectedSum(SIZE) != PRINTED_EXPECTED
    ensures ExpectedSum(SIZE / 10) == PRINTED_EXPECTED
  {
  }

  /** main: array[i] = i, then both approaches; every run's total is SIZE*(SIZE-1)/2,
      so it disagrees with the announced figure. */
  method RunApproaches() returns (pointerTotal: int, indexTotal: int)
    ensures pointerTotal == indexTotal == ExpectedSum(SIZE) == 124999750000
    ensures pointerTotal != PRINTED_EXPECTED
  {
    var arr := new int[SIZE];
    for i := 0 to SIZE
      invariant forall k :: 0 <= k < i ==> arr[k] == k
    {
      arr[i] := i;
    }
    pointerTotal := SplitTotal(arr, THREADS, true);
    indexTotal := SplitTotal(arr, THREADS, false);
    GaussSum(arr[..], SIZE);
    PrintedExpectedIsForTenthOfSize();
  }
}
