/** Lab5/prog1.c: the sum, minimum and maximum of an int array, computed by one
    serial loop and by an OpenMP loop with `+`, `min` and `max` reductions. */
module OmpReduction {

  import opened Arith
  import opened Split
  import opened Reduce

  const SIZE: nat := 500000000
  const LLONG_MAX: int := 0x7fff_ffff_ffff_ffff

  /** The serial loop: one pass updating the three accumulators. */
  method SerialPass(arr: array<Int32>) returns (sum: int, min: int, max: int)
    ensures sum == Sum(arr[..], 0, arr.Length)
    ensures min == MinOf(arr[..], 0, arr.Length) && max == MaxOf(arr[..], 0, arr.Length)
    ensures forall k :: 0 <= k < arr.Length ==> min <= arr[k] <= max
    ensures arr.Length > 0 ==> exists k :: 0 <= k < arr.Length && arr[k] == min
    ensures arr.Length > 0 ==> exists k :: 0 <= k < arr.Length && arr[k] == max
  {
    sum, min, max := 0, INT_MAX, INT_MIN;
    for i := 0 to arr.Length
      invariant sum == Sum(arr[..], 0, i)
      invariant min == MinOf(arr[..], 0, i) && max == MaxOf(arr[..], 0, i)
    {
      var val := arr[i];
      sum := sum + val;
      if val < min { min := val; }
      if val > max { max := val; }
    }
    MinMaxOfBounds(arr[..], 0, arr.Length);
  }

  /** The reduction loop. The iterations are dealt out to threads in contiguous
      chunks [cuts[c], cuts[c+1]) — any such split, the schedule is the runtime's
      choice. Each thread runs the loop body on private copies seeded with 0, INT_MAX
      and INT_MIN; the private results are then folded into the shared variables,
      which start from those same seeds. */
  method ReductionPass(arr: array<Int32>, cuts: seq<int>) returns (sum: int, min: int, max: int)
    requires ChunkCuts(cuts, arr.Length) && cuts[|cuts| - 1] == arr.Length
    ensures sum == Sum(arr[..], 0, arr.Length)
    ensures min == MinOf(arr[..], 0, arr.Length) && max == MaxOf(arr[..], 0, arr.Length)
  {
    ghost var s := arr[..];
    sum, min, max := 0, INT_MAX, INT_MIN;
    for c := 0 to |cuts| - 1
      invariant sum == CombineSum(s, cuts, c)
      invariant min == CombineMin(s, cuts, c) && max == CombineMax(s, cuts, c)
    {
      var psum, pmin, pmax := 0, INT_MAX, INT_MIN;
      for i := cuts[c] to cuts[c + 1]
        invariant psum == Sum(s, cuts[c], i)
        invariant pmin == MinOf(s, cuts[c], i) && pmax == MaxOf(s, cuts[c], i)
      {
        var val := arr[i];
        psum := psum + val;
        if val < pmin { pmin := val; }
        if val > pmax { pmax := val; }
      }
      sum := sum + psum;
      min := Min(min, pmin);
      max := Max(max, pmax);
    }
    CombineWholeSum(s, cuts, |cuts| - 1);
    CombineWhole(s, cuts, |cuts| - 1);
  }

  /** main's verification lines: whatever split the runtime picks, the parallel sum,
      minimum and maximum equal the serial ones. */
  method CompareSerialParallel(arr: array<Int32>, cuts: seq<int>)
    returns (serialSum: int, parSum: int, serialMin: int, parMin: int, serialMax: int, parMax: int)
    requires ChunkCuts(cuts, arr.Length) && cuts[|cuts| - 1] == arr.Length
    ensures serialSum == parSum && serialMin == parMin && serialMax == parMax
    ensures arr.Length > 0 ==> serialMin <= serialMax
  {
    serialSum, serialMin, serialMax := SerialPass(arr);
    parSum, parMin, parMax := ReductionPass(arr, cuts);
    if arr.Length > 0 {
      assert serialMin <= arr[0] <= serialMax;
    }
  }

  /** The `long long` sums cannot overflow: a sum of m C ints lies in
      [m * INT_MIN, m * INT_MAX]. */
  lemma {:induction false} SumBounds(s: seq<int>, lo: int, hi: int)
    requires 0 <= lo <= hi <= |s| && AllInt32(s)
    ensures (hi - lo) * INT_MIN <= Sum(s, lo, hi) <= (hi - lo) * INT_MAX
    decreases hi - lo
  {
    if hi > lo {
      SumBounds(s, lo, hi - 1);
      assert IsInt32(s[hi - 1]);
    }
  }

  /** For the SIZE = 500000000 elements of main, the sum fits a `long long`. */
  lemma SizeSumFitsLongLong(s: seq<int>)
    requires |s| == SIZE && AllInt32(s)
    ensures -LLONG_MAX - 1 <= Sum(s, 0, SIZE) <= LLONG_MAX
  {
    SumBounds(s, 0, SIZE);
  }
}
