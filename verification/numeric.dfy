/**
 * The C++ numeric conversions the processor relies on, written out over
 * unbounded integers and exact reals (IEEE rounding is not modelled).
 */
module Num {

  const U16_LIMIT: nat := 65536
  const INT32_MIN: int := -0x8000_0000
  const INT32_MAX: int := 0x7FFF_FFFF

  predicate InInt32(v: int) { INT32_MIN <= v <= INT32_MAX }

  /** The values of a `uint16_t`. */
  type U16 = v: int | 0 <= v < U16_LIMIT

  /** `static_cast<int>` of a floating value: truncation toward zero. */
  function Trunc(r: real): (t: int)
    ensures r >= 0.0 ==> t as real <= r < t as real + 1.0
    ensures r < 0.0 ==> t as real - 1.0 < r <= t as real
  {
    if r >= 0.0 then r.Floor else -((-r).Floor)
  }

  /** A float value whose truncation is representable as `uint16_t`; other conversions are undefined. */
  predicate FitsU16(r: real) { 0 <= Trunc(r) < U16_LIMIT }

  /** Conversion of an `int` to `uint16_t`: reduction modulo 2^16. */
  function WrapU16(v: int): (w: nat)
    ensures w < U16_LIMIT
    ensures 0 <= v < U16_LIMIT ==> w == v
    ensures (v - w) % U16_LIMIT == 0
  {
    v % U16_LIMIT
  }

  /** C++ integer division `/` on `int`, which truncates toward zero. */
  function TruncDiv(a: int, b: int): int
    requires b > 0
  {
    if a >= 0 then a / b else -((-a) / b)
  }

  /** C++ `%` on `int`: the remainder takes the sign of the dividend. */
  function TruncMod(a: int, b: int): int
    requires b > 0
  {
    if a >= 0 then a % b else -((-a) % b)
  }

  lemma DivPos(n: int, b: int)
    requires n >= 0 && b > 0
    ensures n / b >= 0 && n == (n / b) * b + n % b && 0 <= n % b < b
  {
  }

  lemma TruncDivMod(a: int, b: int)
    requires b > 0
    ensures TruncDiv(a, b) * b + TruncMod(a, b) == a
    ensures a >= 0 ==> 0 <= TruncMod(a, b) < b && TruncDiv(a, b) >= 0
    ensures a < 0 ==> -b < TruncMod(a, b) <= 0 && TruncDiv(a, b) <= 0
  {
    if a >= 0 {
      DivPos(a, b);
    } else {
      DivPos(-a, b);
      var q := (-a) / b;
      assert TruncDiv(a, b) * b == (-q) * b == -(q * b);
    }
  }

  function Pow10(n: nat): (p: nat)
    ensures p >= 1
  {
    if n == 0 then 1 else 10 * Pow10(n - 1)
  }

  /** The exact value of the decimal `m * 10^e`. */
  function Scale(m: nat, e: int): real
  {
    if e >= 0 then (m * Pow10(e)) as real else m as real / Pow10(-e) as real
  }
}
