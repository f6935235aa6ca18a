/** Lab1/prog.c: trial-division primality and the loop that collects the first
    primes into a 1000-slot buffer. */
module Primes {

  import opened Arith

  const SLOTS: nat := 1000
  const LIMIT: nat := 100000

  /** d divides n. */
  ghost predicate Divides(d: int, n: int)
    requires d >= 1
  {
    n % d == 0
  }

  /** n is prime: at least 2 and no divisor strictly between 1 and n. */
  ghost predicate Prime(n: int) {
    n >= 2 && forall d :: 2 <= d < n ==> !Divides(d, n)
  }

  /** The cofactor num / d of a proper divisor d of num is a proper divisor too. */
  lemma Cofactor(num: int, d: int) returns (e: int)
    requires 2 <= d < num && Divides(d, num)
    ensures 2 <= e && d * e == num && Divides(e, num)
  {
    e := num / d;
    assert num == d * e + num % d;
    assert num == d * e;
    if e <= 1 {
      MulLe(e, 1, d);
      assert false;
    }
    MulDivCancel(e, d);
    assert num % e == num - e * (num / e);
  }

  /** A number with no divisor d >= 2 with d*d <= num has none below num either:
      the cofactor of such a divisor would be a smaller one. */
  lemma NoSmallDivisorPrime(num: int, i: int)
    requires num >= 2 && i >= 2 && i * i > num
    requires forall d :: 2 <= d < i ==> !Divides(d, num)
    ensures Prime(num)
  {
    forall d | 2 <= d < num
      ensures !Divides(d, num)
    {
      if Divides(d, num) {
        var e := Cofactor(num, d);
        // d >= i because smaller divisors are excluded, so e < i.
        if e >= i {
          MulLe(i, d, i);
          MulLe(i, e, d);
          assert false;
        }
      }
    }
  }

  /** isPrime: false below 2, otherwise tries the divisors i = 2, 3, ... while
      i*i <= num and reports whether none divides num. */
  method IsPrime(num: int) returns (b: bool)
    ensures b <==> Prime(num)
  {
    if num <= 1 {
      return false;
    }
    var i := 2;
    while i * i <= num
      invariant 2 <= i <= num
      invariant forall d :: 2 <= d < i ==> !Divides(d, num)
      decreases num - i
    {
      if num % i == 0 {
        assert i < num by {
          MulLe(2, i, i);
        }
        assert Divides(i, num);
        return false;
      }
      assert i + 1 <= num by {
        assert i * i >= 2 * i;
      }
      i := i + 1;
    }
    NoSmallDivisorPrime(num, i);
    return true;
  }

  /** The primes below m in increasing order. */
  ghost function PrimesBelow(m: nat): seq<int>
  {
    if m == 0 then [] else PrimesBelow(m - 1) + (if Prime(m - 1) then [m - 1] else [])
  }

  /** PrimesBelow(m) is strictly increasing and holds exactly the primes below m. */
  lemma {:induction false} PrimesBelowSpec(m: nat)
    ensures forall k, k' :: 0 <= k < k' < |PrimesBelow(m)| ==> PrimesBelow(m)[k] < PrimesBelow(m)[k']
    ensures forall p :: p in PrimesBelow(m) <==> 0 <= p < m && Prime(p)
  {
    if m > 0 {
      PrimesBelowSpec(m - 1);
      var s := PrimesBelow(m - 1);
      forall k | 0 <= k < |s|
        ensures s[k] < m - 1
      {
        assert s[k] in s;
      }
    }
  }

  /** The collector: scan i = 0, 1, ... below LIMIT, store each prime at arr[ptr++],
      and stop once SLOTS primes are stored. The stored primes are the primes below
      some bound in increasing order (none is skipped), ptr never exceeds SLOTS, and
      the scan only ends short of LIMIT with all SLOTS slots filled. */
  method CollectPrimes() returns (arr: array<int>, ptr: int)
    ensures arr.Length == SLOTS && 0 <= ptr <= SLOTS
    ensures exists m :: 0 <= m <= LIMIT && arr[..ptr] == PrimesBelow(m) && (m < LIMIT ==> ptr == SLOTS)
    ensures forall k :: 0 <= k < ptr ==> Prime(arr[k])
    ensures forall k, k' :: 0 <= k < k' < ptr ==> arr[k] < arr[k']
  {
    arr := new int[SLOTS];
    ptr := 0;
    ghost var scanned := 0;
    for i := 0 to LIMIT
      invariant scanned == i && 0 <= ptr < SLOTS
      invariant arr[..ptr] == PrimesBelow(i)
    {
      ghost var stored := arr[..ptr];
      var p := IsPrime(i);
      if p {
        arr[ptr] := i;
        ptr := ptr + 1;
        assert arr[..ptr] == stored + [i];
      }
      scanned := i + 1;
      assert arr[..ptr] == PrimesBelow(scanned);
      if ptr == SLOTS {
        break;
      }
    }
    assert arr[..ptr] == PrimesBelow(scanned) && scanned <= LIMIT && (scanned < LIMIT ==> ptr == SLOTS);
    PrimesBelowSpec(scanned);
    forall k | 0 <= k < ptr
      ensures Prime(arr[k])
    {
      assert arr[k] == arr[..ptr][k];
      assert arr[..ptr][k] in PrimesBelow(scanned);
    }
    forall k, k' | 0 <= k < k' < ptr
      ensures arr[k] < arr[k']
    {
      assert arr[k] == PrimesBelow(scanned)[k] && arr[k'] == PrimesBelow(scanned)[k'];
    }
  }
}
