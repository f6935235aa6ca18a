/** How the drivers split an index space [0, n) among t workers. Every split is given
    by its cut points c[0] <= c[1] <= ... <= c[t]: worker k gets [c[k], c[k+1]). */
module Split {

  import opened Arith

  /** Half-open interval [lo, hi); empty when hi <= lo. */
  datatype Range = Range(lo: int, hi: int) {
    predicate Contains(i: int) {
      lo <= i < hi
    }
  }

  ghost predicate NonDecreasing(cuts: seq<int>) {
    forall k, k' :: 0 <= k <= k' < |cuts| ==> cuts[k] <= cuts[k']
  }

  /** The one segment of a non-decreasing cut sequence that holds i. */
  function Owner(cuts: seq<int>, i: int): (k: nat)
    requires |cuts| >= 2 && NonDecreasing(cuts) && cuts[0] <= i < cuts[|cuts| - 1]
    ensures k < |cuts| - 1 && cuts[k] <= i < cuts[k + 1]
    ensures forall k' :: 0 <= k' < |cuts| - 1 && cuts[k'] <= i < cuts[k' + 1] ==> k' == k
  {
    if i < cuts[1] then 0 else 1 + Owner(cuts[1..], i)
  }

  /** The contiguous split used by most drivers: chunk = n / t, worker tid gets
      [tid * chunk, (tid + 1) * chunk), except that the last worker ends at n. */
  function BlockRange(n: nat, t: nat, tid: nat): (r: Range)
    requires 1 <= t && tid < t
    ensures 0 <= r.lo <= r.hi <= n
  {
    var chunk := n / t;
    assert tid * chunk <= (tid + 1) * chunk <= t * chunk <= n by {
      MulLe(tid, tid + 1, chunk);
      MulLe(tid + 1, t, chunk);
    }
    Range(tid * chunk, if tid == t - 1 then n else (tid + 1) * chunk)
  }

  function BlockCuts(n: nat, t: nat): (cuts: seq<int>)
    requires 1 <= t
    ensures |cuts| == t + 1
  {
    seq(t + 1, k => if k == t then n else k * (n / t))
  }

  lemma BlockCutsShape(n: nat, t: nat)
    requires 1 <= t
    ensures NonDecreasing(BlockCuts(n, t))
    ensures BlockCuts(n, t)[0] == 0 && BlockCuts(n, t)[t] == n
    ensures forall tid :: 0 <= tid < t ==> BlockRange(n, t, tid) == Range(BlockCuts(n, t)[tid], BlockCuts(n, t)[tid + 1])
  {
    var cuts := BlockCuts(n, t);
    assert t * (n / t) <= n;
    forall k, k' | 0 <= k <= k' < |cuts|
      ensures cuts[k] <= cuts[k']
    {
      MulLe(k, k', n / t);
      if k' == t {
        MulLe(k, t, n / t);
      }
    }
  }

  /** Block split: every index of [0, n) belongs to exactly one worker, even when t > n. */
  lemma BlockRangeExactlyOnce(n: nat, t: nat, i: int) returns (tid: nat)
    requires 1 <= t && 0 <= i < n
    ensures tid < t && BlockRange(n, t, tid).Contains(i)
    ensures forall tid' :: 0 <= tid' < t && BlockRange(n, t, tid').Contains(i) ==> tid' == tid
  {
    BlockCutsShape(n, t);
    var cuts := BlockCuts(n, t);
    tid := Owner(cuts, i);
    assert BlockRange(n, t, tid) == Range(cuts[tid], cuts[tid + 1]);
    forall tid' | 0 <= tid' < t && BlockRange(n, t, tid').Contains(i)
      ensures tid' == tid
    {
      assert BlockRange(n, t, tid') == Range(cuts[tid'], cuts[tid' + 1]);
    }
  }

  /** Block split: consecutive ranges abut, the first starts at 0 and the last ends at n. */
  lemma BlockRangesAbut(n: nat, t: nat)
    requires 1 <= t
    ensures BlockRange(n, t, 0).lo == 0 && BlockRange(n, t, t - 1).hi == n
    ensures forall tid :: 0 <= tid < t - 1 ==> BlockRange(n, t, tid).hi == BlockRange(n, t, tid + 1).lo
    ensures forall tid :: 0 <= tid < t ==> 0 <= BlockRange(n, t, tid).lo <= BlockRange(n, t, tid).hi <= n
  {
    BlockCutsShape(n, t);
    var cuts := BlockCuts(n, t);
    forall tid | 0 <= tid < t
      ensures 0 <= BlockRange(n, t, tid).lo <= BlockRange(n, t, tid).hi <= n
    {
      assert cuts[0] <= cuts[tid] <= cuts[tid + 1] <= cuts[t];
    }
  }

  /** Block split: worker tid starts where worker tid-1 stopped (worker 0 at 0), and
      the last one stops at n; so the workers before tid have covered exactly
      [0, BlockRange(n, t, tid).lo). */
  lemma BlockRangeFollows(n: nat, t: nat, tid: nat)
    requires 1 <= t && tid < t
    ensures BlockRange(n, t, tid).lo == if tid == 0 then 0 else BlockRange(n, t, tid - 1).hi
    ensures 0 <= BlockRange(n, t, tid).lo <= BlockRange(n, t, tid).hi <= n
    ensures tid == t - 1 ==> BlockRange(n, t, tid).hi == n
  {
    BlockRangesAbut(n, t);
  }

  /** The proportional split r0 = tid*n/t, r1 = (tid+1)*n/t: one worker's range
      lies inside [0, n] and is not reversed. */
  function ProportionalRange(n: nat, t: nat, tid: nat): (r: Range)
    requires 1 <= t && tid < t
    ensures 0 <= r.lo <= r.hi <= n
  {
    MulLe(tid, tid + 1, n);
    DivLe(tid * n, (tid + 1) * n, t);
    MulLe(tid + 1, t, n);
    DivLe((tid + 1) * n, t * n, t);
    MulDivCancel(t, n);
    Range(tid * n / t, (tid + 1) * n / t)
  }

  lemma ProportionalEnds(n: nat, t: nat)
    requires 1 <= t
    ensures ProportionalRange(n, t, 0).lo == 0 && ProportionalRange(n, t, t - 1).hi == n
    ensures forall tid :: 0 <= tid < t - 1 ==> ProportionalRange(n, t, tid).hi == ProportionalRange(n, t, tid + 1).lo
    ensures forall tid :: 0 <= tid < t ==> 0 <= ProportionalRange(n, t, tid).lo <= ProportionalRange(n, t, tid).hi <= n
  {
    MulDivCancel(t, n);
  }

  function ProportionalCuts(n: nat, t: nat): (cuts: seq<int>)
    requires 1 <= t
    ensures |cuts| == t + 1
  {
    seq(t + 1, k => k * n / t)
  }

  /** Proportional split: every index of [0, n) belongs to exactly one worker. */
  lemma ProportionalExactlyOnce(n: nat, t: nat, i: int) returns (tid: nat)
    requires 1 <= t && 0 <= i < n
    ensures tid < t && ProportionalRange(n, t, tid).Contains(i)
    ensures forall tid' :: 0 <= tid' < t && ProportionalRange(n, t, tid').Contains(i) ==> tid' == tid
  {
    var cuts := ProportionalCuts(n, t);
    forall k, k' | 0 <= k <= k' < |cuts|
      ensures cuts[k] <= cuts[k']
    {
      MulLe(k, k', n);
      DivLe(k * n, k' * n, t);
    }
    MulDivCancel(t, n);
    assert cuts[t] == n;
    tid := Owner(cuts, i);
    assert ProportionalRange(n, t, tid) == Range(cuts[tid], cuts[tid + 1]);
    forall tid' | 0 <= tid' < t && ProportionalRange(n, t, tid').Contains(i)
      ensures tid' == tid
    {
      assert ProportionalRange(n, t, tid') == Range(cuts[tid'], cuts[tid' + 1]);
    }
  }

  /** The indices lo, lo+1, ..., hi-1 in increasing order. */
  function Iota(lo: int, hi: int): (s: seq<int>)
    ensures |s| == if lo <= hi then hi - lo else 0
    ensures forall k :: 0 <= k < |s| ==> s[k] == lo + k
    decreases hi - lo
  {
    if hi <= lo then [] else Iota(lo, hi - 1) + [hi - 1]
  }

  /** The log s mentions each index of [0, n) exactly once and nothing else. */
  ghost predicate ExactlyOnce(s: seq<int>, n: int) {
    forall x :: multiset(s)[x] == if 0 <= x < n then 1 else 0
  }

  lemma {:induction false} IotaCount(lo: int, hi: int, x: int)
    requires lo <= hi
    ensures multiset(Iota(lo, hi))[x] == if lo <= x < hi then 1 else 0
    decreases hi - lo
  {
    if hi > lo {
      IotaCount(lo, hi - 1, x);
      assert Iota(lo, hi) == Iota(lo, hi - 1) + [hi - 1];
    }
  }

  /** Handing out [lo, mid) and then [mid, hi) hands out [lo, hi) in order. */
  lemma IotaAppend(lo: int, mid: int, hi: int)
    requires lo <= mid <= hi
    ensures Iota(lo, mid) + Iota(mid, hi) == Iota(lo, hi)
  {
    assert forall k :: 0 <= k < hi - lo ==> (Iota(lo, mid) + Iota(mid, hi))[k] == lo + k;
  }

  /** Processing 0, 1, ..., n-1 in order processes every index exactly once. */
  lemma IotaExactlyOnce(n: nat)
    ensures ExactlyOnce(Iota(0, n), n)
  {
    forall x
      ensures multiset(Iota(0, n))[x] == if 0 <= x < n then 1 else 0
    {
      IotaCount(0, n, x);
    }
  }
}
