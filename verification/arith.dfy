/** C++ integer arithmetic that differs from Dafny's, and flag tests. */
module Arith {

  /** Integer division rounding toward zero, as C++ `/` does on `int`. */
  function TruncDiv(a: int, b: int): (q: int)
    requires b > 0
    ensures a >= 0 ==> q >= 0 && 0 <= a - q * b < b
    ensures a < 0 ==> q <= 0 && -b < a - q * b <= 0
  {
    if a >= 0 then
      DivRem(a, b);
      a / b
    else
      DivRem(-a, b);
      NegMul((-a) / b, b);
      -((-a) / b)
  }

  lemma DivRem(n: nat, b: int)
    requires b > 0
    ensures n / b >= 0 && n - (n / b) * b == n % b && 0 <= n % b < b
  {
  }

  lemma NegMul(q: int, b: int)
    ensures (-q) * b == -(q * b)
  {
  }

  /** The quotient rounding toward zero is unique: it is the only q whose
    * remainder has the sign of `a` and is smaller than `b`. */
  lemma TruncDivUnique(a: int, b: int, q: int)
    requires b > 0
    requires a >= 0 ==> 0 <= a - q * b < b
    requires a < 0 ==> -b < a - q * b <= 0
    ensures q == TruncDiv(a, b)
  {
    var t := TruncDiv(a, b);
    var k := t - q;
    assert (a - q * b) - (a - t * b) == k * b by {
      assert k * b == t * b - q * b;
    }
    if k >= 1 {
      MulAtLeast(k, b);
    } else if k <= -1 {
      MulAtLeast(-k, b);
    }
  }

  lemma MulAtLeast(k: int, b: int)
    requires k >= 1 && b > 0
    ensures k * b >= b
  {
    assert k * b == b + (k - 1) * b;
  }

  /** For a negative odd dividend truncation is one above the floor. */
  lemma TruncDivNegative(a: int)
    requires a < 0 && a % 2 == 1
    ensures TruncDiv(a, 2) == a / 2 + 1
  {
  }

  function Max(a: int, b: int): (m: int)
    ensures m >= a && m >= b
    ensures m == a || m == b
  {
    if a >= b then a else b
  }

  function MinReal(a: real, b: real): (m: real)
    ensures m <= a && m <= b
    ensures m == a || m == b
  {
    if a <= b then a else b
  }

  function MaxReal(a: real, b: real): (m: real)
    ensures m >= a && m >= b
    ensures m == a || m == b
  {
    if a >= b then a else b
  }

  /** `glm::clamp` on reals. */
  function ClampReal(x: real, lo: real, hi: real): (r: real)
    requires lo <= hi
    ensures lo <= r <= hi
    ensures lo <= x <= hi ==> r == x
    ensures x < lo ==> r == lo
    ensures x > hi ==> r == hi
  {
    if x < lo then lo else if x > hi then hi else x
  }

  /** `flags & bit` is non-zero, for a single-bit mask `bit`. */
  predicate HasFlag(flags: nat, bit: nat)
    requires bit > 0
  {
    (flags / bit) % 2 == 1
  }

  /** A float-to-int cast: the fraction is dropped, rounding toward zero.
    * Values outside the `int` range are not modelled. */
  function TruncReal(x: real): (r: int)
    ensures x >= 0.0 ==> 0 <= r && r as real <= x < r as real + 1.0
    ensures x < 0.0 ==> r <= 0 && r as real - 1.0 < x <= r as real
  {
    if x >= 0.0 then x.Floor else -((-x).Floor)
  }

  /** A whole number survives the cast unchanged. */
  lemma TruncRealOfInt(n: int)
    ensures TruncReal(n as real) == n
  {
  }
}
