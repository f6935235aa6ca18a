/** Facts about multiplication and division of naturals that the index arithmetic of
    the kernels relies on and the solver does not find unaided. */
module Arith {

  lemma MulLe(a: int, b: int, n: nat)
    requires a <= b
    ensures a * n <= b * n
  {
    assert b * n == a * n + (b - a) * n;
  }

  /** Dividing by a larger divisor gives no larger quotient. */
  lemma DivByLarger(x: nat, s: nat, t: nat)
    requires 1 <= s <= t
    ensures x / t <= x / s
  {
    var q := x / t;
    MulLe(s, t, q);
    if x / s < q {
      MulLe(x / s + 1, q, s);
      assert false;
    }
  }

  lemma DivLe(a: nat, b: nat, t: nat)
    requires 1 <= t && a <= b
    ensures a / t <= b / t
  {
    if a / t > b / t {
      MulLe(b / t + 1, a / t, t);
      assert false;
    }
  }

  lemma MulDivCancel(t: nat, n: nat)
    requires 1 <= t
    ensures t * n / t == n
  {
    var q, r := t * n / t, t * n % t;
    assert t * n == t * q + r && 0 <= r < t;
    if q < n {
      MulLe(q + 1, n, t);
      assert false;
    } else if q > n {
      MulLe(n + 1, q, t);
      assert false;
    }
  }

  /** C's integer division by a positive divisor: the quotient is truncated toward
      zero, so it differs from Dafny's `/` on negative dividends. */
  function CDiv(a: int, b: int): (q: int)
    requires b > 0
    ensures a >= 0 ==> q == a / b
    ensures a < 0 ==> -a / b == -q
  {
    if a >= 0 then a / b else -((-a) / b)
  }

  /** The absolute value (`fabs` of the kernels that compare doubles). */
  function Abs(x: int): (r: nat)
    ensures r == x || r == -x
  {
    if x < 0 then -x else x
  }

  function Min(a: int, b: int): int {
    if b < a then b else a
  }

  function Max(a: int, b: int): int {
    if b > a then b else a
  }

  /** Division by t is determined by any quotient and in-range remainder. */
  lemma DivModUnique(x: int, t: nat, q: int, r: int)
    requires 1 <= t && 0 <= r < t && x == t * q + r
    ensures x / t == q && x % t == r
  {
    var q', r' := x / t, x % t;
    assert x == t * q' + r' && 0 <= r' < t;
    NoMultipleBetween(q - q', t, r' - r);
  }

  /** The only multiple of t strictly between -t and t is 0. */
  lemma NoMultipleBetween(d: int, t: nat, e: int)
    requires 1 <= t && 0 < e + t && e < t && t * d == e
    ensures d == 0
  {
    if d >= 1 {
      MulLe(1, d, t);
    } else if d <= -1 {
      MulLe(d, -1, t);
    }
  }

  /** Adding the modulus leaves the remainder unchanged. */
  lemma ModAddModulus(x: int, t: nat)
    requires 1 <= t
    ensures (x + t) % t == x % t
  {
    DivModUnique(x + t, t, x / t + 1, x % t);
  }

  /** A natural below the modulus is its own remainder. */
  lemma ModSmall(x: int, t: nat)
    requires 1 <= t && 0 <= x < t
    ensures x % t == x
  {
    DivModUnique(x, t, 0, x);
  }

  /** Two naturals less than t apart with the same remainder are equal. */
  lemma ModGap(x: int, y: int, t: nat)
    requires 1 <= t && 0 <= y <= x < y + t && x % t == y % t
    ensures x == y
  {
    var qx, qy := x / t, y / t;
    assert x - y == t * qx - t * qy == t * (qx - qy);
    NoMultipleBetween(qx - qy, t, x - y);
  }
}
