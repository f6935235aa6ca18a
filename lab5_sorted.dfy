/** Lab5/prog2.cpp: three ways of checking that an int vector is sorted in
    non-decreasing order — a shared flag, a violation count, and threads that each
    scan one block of the adjacent pairs — with their loops run sequentially. */
module SortedCheck {

  import opened Arith
  import opened Split

  /** (i, i+1) is a pair of positions of s and it is out of order. */
  predicate Descent(s: seq<int>, i: int) {
    0 <= i < |s| - 1 && s[i] > s[i + 1]
  }

  /** No adjacent pair of s is out of order. */
  ghost predicate Sorted(s: seq<int>) {
    forall i :: !Descent(s, i)
  }

  /** Number of out-of-order pairs (i, i+1) with lo <= i < hi. */
  function Violations(s: seq<int>, lo: int, hi: int): (v: nat)
    requires 0 <= lo <= hi <= |s| - 1
    decreases hi - lo
  {
    if hi == lo then 0 else Violations(s, lo, hi - 1) + (if Descent(s, hi - 1) then 1 else 0)
  }

  /** The count is zero exactly when no pair of [lo, hi) is out of order. */
  lemma {:induction false} ViolationsZero(s: seq<int>, lo: int, hi: int)
    requires 0 <= lo <= hi <= |s| - 1
    ensures Violations(s, lo, hi) == 0 <==> forall i :: lo <= i < hi ==> !Descent(s, i)
    decreases hi - lo
  {
    if hi > lo {
      ViolationsZero(s, lo, hi - 1);
    }
  }

  /** Non-decreasing everywhere: a sorted vector is ordered on every pair of
      positions, not only adjacent ones. */
  lemma {:induction false} SortedOrdered(s: seq<int>, i: int, j: int)
    requires Sorted(s) && 0 <= i <= j < |s|
    ensures s[i] <= s[j]
    decreases j - i
  {
    if i < j {
      SortedOrdered(s, i, j - 1);
      assert !Descent(s, j - 1);
    }
  }

  /** generate_list: arr[i] = i for i < size. */
  method GenerateList(arr: array<int>, size: int)
    requires 0 <= size <= arr.Length
    modifies arr
    ensures forall i :: 0 <= i < size ==> arr[i] == i
    ensures forall i :: size <= i < arr.Length ==> arr[i] == old(arr[i])
  {
    for i := 0 to size
      invariant forall k :: 0 <= k < i ==> arr[k] == k
      invariant forall k :: i <= k < arr.Length ==> arr[k] == old(arr[k])
    {
      arr[i] := i;
    }
  }

  /** omp_check_early_exit with its iterations in order: once the flag is false the
      remaining iterations skip their test, and the flag never becomes true again. */
  method OmpCheckEarlyExit(arr: seq<int>) returns (sorted: bool)
    ensures sorted <==> Sorted(arr)
  {
    var n := |arr|;
    sorted := true;
    var i := 0;
    while i < n - 1
      invariant 0 <= i <= if n >= 1 then n - 1 else 0
      invariant !sorted <==> exists k :: 0 <= k < i && Descent(arr, k)
    {
      if sorted {
        if arr[i] > arr[i + 1] {
          sorted := false;
          assert Descent(arr, i);
        }
      }
      i := i + 1;
    }
  }

  /** omp_check_reduction: counts the out-of-order pairs and reports whether there
      are none. */
  method OmpCheckReduction(arr: seq<int>) returns (sorted: bool)
    ensures sorted <==> Sorted(arr)
    ensures |arr| >= 1 ==> (sorted <==> Violations(arr, 0, |arr| - 1) == 0)
  {
    var n := |arr|;
    var violations := 0;
    var i := 0;
    while i < n - 1
      invariant 0 <= i <= if n >= 1 then n - 1 else 0
      invariant i > 0 ==> violations == Violations(arr, 0, i)
      invariant i == 0 ==> violations == 0
    {
      if arr[i] > arr[i + 1] {
        violations := violations + 1;
      }
      i := i + 1;
    }
    if n >= 1 {
      ViolationsZero(arr, 0, n - 1);
    }
    sorted := violations == 0;
  }

  /** thread_worker: result 1 if every pair in [start, end) is in order, 0 otherwise;
      the scan stops at the first out-of-order pair, and `scanned` counts the pairs
      it examined. */
  method ThreadWorker(arr: seq<int>, start: int, end: int) returns (result: int, ghost scanned: int)
    requires 0 <= start && (start < end ==> end <= |arr| - 1)
    ensures result == 0 || result == 1
    ensures result == 0 <==> exists i :: start <= i < end && Descent(arr, i)
    ensures result == 0 ==>
      scanned >= 1 && Descent(arr, start + scanned - 1) && forall i :: start <= i < start + scanned - 1 ==> !Descent(arr, i)
    ensures result == 1 ==> scanned == if start < end then end - start else 0
  {
    result := 1;
    scanned := 0;
    var i := start;
    while i < end
      invariant start <= i <= if start < end then end else start
      invariant scanned == i - start
      invariant forall k :: start <= k < i ==> !Descent(arr, k)
    {
      scanned := scanned + 1;
      if arr[i] > arr[i + 1] {
        result := 0;
        assert Descent(arr, i);
        return;
      }
      i := i + 1;
    }
  }

  /** The pair range of thread i: chunk = (n-1)/T truncated as C does, thread i gets
      [i*chunk, (i+1)*chunk), the last one ending at n-1. */
  function PairRange(n: nat, t: nat, i: nat): (r: Range)
    requires 1 <= t && i < t
    ensures 0 <= r.lo && (r.lo < r.hi ==> r.hi <= n - 1)
  {
    var chunk := CDiv(n - 1, t);
    assert n == 0 ==> chunk == if t == 1 then -1 else 0;
    assert n >= 1 ==> Range(i * chunk, if i == t - 1 then n - 1 else (i + 1) * chunk) == BlockRange(n - 1, t, i);
    Range(i * chunk, if i == t - 1 then n - 1 else (i + 1) * chunk)
  }

  /** For a non-empty vector the pair ranges are the block split of the n-1 pairs;
      for an empty one every range is empty and starts at 0 or later. */
  lemma PairRangeShape(n: nat, t: nat, i: nat)
    requires 1 <= t && i < t
    ensures n >= 1 ==> PairRange(n, t, i) == BlockRange(n - 1, t, i)
    ensures n == 0 ==> PairRange(n, t, i).hi <= PairRange(n, t, i).lo
  {
    if n >= 1 {
      BlockRangesAbut(n - 1, t);
    } else if t == 1 {
      assert CDiv(-1, t) == -1;
    } else {
      assert CDiv(-1, t) == 0;
    }
  }

  /** What thread u reports once it has run. */
  ghost predicate Reported(arr: seq<int>, t: nat, u: nat, r: int)
    requires 1 <= t && u < t
  {
    var rg := PairRange(|arr|, t, u);
    (r == 0 || r == 1) && (r == 0 <==> exists i :: rg.lo <= i < rg.hi && Descent(arr, i))
  }

  /** manual_thread_check with numThreads workers run one after the other: the
      answer is the sequential sortedness answer. */
  method ManualThreadCheck(arr: seq<int>, numThreads: nat) returns (globalSorted: bool)
    requires 1 <= numThreads
    ensures globalSorted <==> Sorted(arr)
  {
    var n := |arr|;
    var results := new int[numThreads](_ => 1);
    var chunkSize := CDiv(n - 1, numThreads);
    for i := 0 to numThreads
      invariant forall u :: 0 <= u < i ==> Reported(arr, numThreads, u, results[u])
    {
      var start := i * chunkSize;
      var end := if i == numThreads - 1 then n - 1 else (i + 1) * chunkSize;
      PairRangeShape(n, numThreads, i);
      assert PairRange(n, numThreads, i) == Range(start, end);
      var r, _ := ThreadWorker(arr, start, end);
      results[i] := r;
    }
    globalSorted := Join(arr, results);
  }

  /** The join loop: any thread that reported 0 makes the answer false. */
  method Join(arr: seq<int>, results: array<int>) returns (globalSorted: bool)
    requires 1 <= results.Length
    requires forall u :: 0 <= u < results.Length ==> Reported(arr, results.Length, u, results[u])
    ensures globalSorted <==> Sorted(arr)
  {
    var t := results.Length;
    globalSorted := true;
    for i := 0 to t
      invariant globalSorted <==> forall u :: 0 <= u < i ==> results[u] != 0
    {
      if results[i] == 0 {
        globalSorted := false;
      }
    }
    if !Sorted(arr) {
      var k :| 0 <= k < |arr| - 1 && Descent(arr, k);
      var owner := BlockRangeExactlyOnce(|arr| - 1, t, k);
      PairRangeShape(|arr|, t, owner);
      assert Reported(arr, t, owner, results[owner]);
    }
  }

  /** main for one size: generate_list, then the three checks; all of them find the
      generated vector sorted. */
  method RunSize(n: nat, numThreads: nat) returns (flag: bool, reduction: bool, manual: bool)
    requires 1 <= numThreads
    ensures flag && reduction && manual
  {
    var arr := new int[n];
    GenerateList(arr, n);
    assert Sorted(arr[..]);
    flag := OmpCheckEarlyExit(arr[..]);
    reduction := OmpCheckReduction(arr[..]);
    manual := ManualThreadCheck(arr[..], numThreads);
  }
}
