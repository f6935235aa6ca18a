/** Sum, minimum and maximum of a stretch of an array, the identities the drivers seed
    their accumulators with (0, INT_MAX, INT_MIN), and the fact that combining
    per-chunk results over any contiguous split gives the result for the whole. */
module Reduce {

  import opened Arith
  import opened Split

  const INT_MAX: int := 0x7fff_ffff
  const INT_MIN: int := -0x8000_0000

  /** The values of a C `int`. */
  type Int32 = x: int | INT_MIN <= x <= INT_MAX

  /** The value fits a C `int`. */
  predicate IsInt32(x: int) {
    INT_MIN <= x <= INT_MAX
  }

  ghost predicate AllInt32(s: seq<int>) {
    forall k :: 0 <= k < |s| ==> IsInt32(s[k])
  }

  /** s[lo] + ... + s[hi-1]. */
  function Sum(s: seq<int>, lo: int, hi: int): int
    requires 0 <= lo <= hi <= |s|
    decreases hi - lo
  {
    if hi == lo then 0 else Sum(s, lo, hi - 1) + s[hi - 1]
  }

  /** Minimum of s[lo..hi], INT_MAX for an empty stretch. */
  function MinOf(s: seq<int>, lo: int, hi: int): int
    requires 0 <= lo <= hi <= |s|
    decreases hi - lo
  {
    if hi == lo then INT_MAX else Min(MinOf(s, lo, hi - 1), s[hi - 1])
  }

  /** Maximum of s[lo..hi], INT_MIN for an empty stretch. */
  function MaxOf(s: seq<int>, lo: int, hi: int): int
    requires 0 <= lo <= hi <= |s|
    decreases hi - lo
  {
    if hi == lo then INT_MIN else Max(MaxOf(s, lo, hi - 1), s[hi - 1])
  }

  /** On a non-empty stretch of C ints, MinOf and MaxOf are bounds of the stretch
      that some element attains; on any stretch they are C ints themselves. */
  lemma {:induction false} MinMaxOfBounds(s: seq<int>, lo: int, hi: int)
    requires 0 <= lo <= hi <= |s| && AllInt32(s)
    ensures IsInt32(MinOf(s, lo, hi)) && IsInt32(MaxOf(s, lo, hi))
    ensures forall k :: lo <= k < hi ==> MinOf(s, lo, hi) <= s[k] <= MaxOf(s, lo, hi)
    ensures lo < hi ==> exists k :: lo <= k < hi && s[k] == MinOf(s, lo, hi)
    ensures lo < hi ==> exists k :: lo <= k < hi && s[k] == MaxOf(s, lo, hi)
    decreases hi - lo
  {
    if hi > lo {
      MinMaxOfBounds(s, lo, hi - 1);
      if hi - 1 == lo {
        assert s[lo] == MinOf(s, lo, hi) == MaxOf(s, lo, hi);
      }
    }
  }

  /** Splitting a stretch at mid and adding the two halves' sums changes nothing. */
  lemma {:induction false} SumSplitAt(s: seq<int>, lo: int, mid: int, hi: int)
    requires 0 <= lo <= mid <= hi <= |s|
    ensures Sum(s, lo, hi) == Sum(s, lo, mid) + Sum(s, mid, hi)
    decreases hi - mid
  {
    if hi > mid {
      SumSplitAt(s, lo, mid, hi - 1);
    }
  }

  /** Splitting a stretch at mid and combining the two halves changes nothing: the
      seeds INT_MAX and INT_MIN are identities of Min and Max on C ints. */
  lemma {:induction false} SplitAt(s: seq<int>, lo: int, mid: int, hi: int)
    requires 0 <= lo <= mid <= hi <= |s| && AllInt32(s)
    ensures MinOf(s, lo, hi) == Min(MinOf(s, lo, mid), MinOf(s, mid, hi))
    ensures MaxOf(s, lo, hi) == Max(MaxOf(s, lo, mid), MaxOf(s, mid, hi))
    decreases hi - mid
  {
    if hi == mid {
      MinMaxOfBounds(s, lo, mid);
    } else {
      SplitAt(s, lo, mid, hi - 1);
    }
  }

  /** Seeds are identities: combining a C-int result with an empty chunk's result
      leaves it unchanged. */
  lemma SeedsAreIdentities(sum: int, min: int, max: int, s: seq<int>, k: int)
    requires 0 <= k <= |s| && IsInt32(min) && IsInt32(max)
    ensures sum + Sum(s, k, k) == sum
    ensures Min(min, MinOf(s, k, k)) == min
    ensures Max(max, MaxOf(s, k, k)) == max
  {
  }

  /** Cut points 0 = cuts[0] <= cuts[1] <= ... <= cuts[last] <= len: chunk c is
      [cuts[c], cuts[c+1]). */
  ghost predicate ChunkCuts(cuts: seq<int>, len: int) {
    |cuts| >= 1 && NonDecreasing(cuts) && cuts[0] == 0 && cuts[|cuts| - 1] <= len
  }

  /** Per-chunk results for the chunks [cuts[c], cuts[c+1]) with c < m, combined in
      chunk order onto the seeds, as the drivers' combine loops do. */
  function CombineSum(s: seq<int>, cuts: seq<int>, m: int): int
    requires ChunkCuts(cuts, |s|) && 0 <= m < |cuts|
  {
    if m == 0 then 0 else CombineSum(s, cuts, m - 1) + Sum(s, cuts[m - 1], cuts[m])
  }

  function CombineMin(s: seq<int>, cuts: seq<int>, m: int): int
    requires ChunkCuts(cuts, |s|) && 0 <= m < |cuts|
  {
    if m == 0 then INT_MAX else Min(CombineMin(s, cuts, m - 1), MinOf(s, cuts[m - 1], cuts[m]))
  }

  function CombineMax(s: seq<int>, cuts: seq<int>, m: int): int
    requires ChunkCuts(cuts, |s|) && 0 <= m < |cuts|
  {
    if m == 0 then INT_MIN else Max(CombineMax(s, cuts, m - 1), MaxOf(s, cuts[m - 1], cuts[m]))
  }

  /** Chunks that tile [cuts[0], cuts[m]) add up to the sum of the whole stretch. */
  lemma {:induction false} CombineWholeSum(s: seq<int>, cuts: seq<int>, m: int)
    requires ChunkCuts(cuts, |s|) && 0 <= m < |cuts|
    ensures CombineSum(s, cuts, m) == Sum(s, 0, cuts[m])
  {
    if m > 0 {
      CombineWholeSum(s, cuts, m - 1);
      SumSplitAt(s, 0, cuts[m - 1], cuts[m]);
    }
  }

  /** Chunks that tile [cuts[0], cuts[m]) combine to the minimum and maximum of the
      whole stretch. */
  lemma {:induction false} CombineWhole(s: seq<int>, cuts: seq<int>, m: int)
    requires ChunkCuts(cuts, |s|) && 0 <= m < |cuts|
    requires AllInt32(s)
    ensures CombineMin(s, cuts, m) == MinOf(s, 0, cuts[m])
    ensures CombineMax(s, cuts, m) == MaxOf(s, 0, cuts[m])
  {
    if m > 0 {
      CombineWhole(s, cuts, m - 1);
      SplitAt(s, 0, cuts[m - 1], cuts[m]);
    }
  }

  /** The block split of [0, n) among t workers as a chunk cut sequence. */
  lemma BlockChunkCuts(n: nat, t: nat)
    requires 1 <= t
    ensures ChunkCuts(BlockCuts(n, t), n) && BlockCuts(n, t)[t] == n
  {
    BlockCutsShape(n, t);
  }

  /** Worker tid of the block split scans chunk tid of the cut sequence. */
  lemma BlockRangeIsChunk(n: nat, t: nat, tid: nat)
    requires 1 <= t && tid < t
    ensures BlockRange(n, t, tid) == Range(BlockCuts(n, t)[tid], BlockCuts(n, t)[tid + 1])
    ensures 0 <= BlockRange(n, t, tid).lo <= BlockRange(n, t, tid).hi <= n
  {
    BlockCutsShape(n, t);
    BlockRangesAbut(n, t);
  }
}
