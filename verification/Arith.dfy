/** Integer and real arithmetic as the C++ sources use it, and the few modular facts the models need. */
module Arith {

  const U32_RANGE: int := 0x1_0000_0000

  /** Conversion of a mathematical integer to `uint32_t`. */
  function U32(x: int): int {
    x % U32_RANGE
  }

  lemma U32Exact(x: int)
    ensures U32(x) == x <==> 0 <= x < U32_RANGE
  {
  }

  const INT_RANGE: int := 0x8000_0000

  /** A mathematical integer kept in a 32-bit `int` that wraps around. */
  function Int32(x: int): int {
    (x + INT_RANGE) % U32_RANGE - INT_RANGE
  }

  lemma Int32Exact(x: int)
    ensures Int32(x) == x <==> -INT_RANGE <= x < INT_RANGE
  {
  }

  /** The `%` of C++ on signed operands: it truncates toward zero, so the result takes the sign of `a`. */
  function TruncMod(a: int, b: int): int
    requires b > 0
  {
    if a >= 0 then a % b else -((-a) % b)
  }

  /** `ceil` on doubles read as reals. */
  function Ceil(x: real): (n: int)
    ensures n as real - 1.0 < x <= n as real
  {
    -((-x).Floor)
  }

  lemma FloorUnique(x: real, n: int)
    requires n as real <= x < n as real + 1.0
    ensures x.Floor == n
  {
  }

  lemma FloorMonotone(x: real, y: real)
    requires x <= y
    ensures x.Floor <= y.Floor
  {
  }

  lemma MultipleGap(k: int, n: int)
    requires n > 0
    ensures k >= 1 ==> k * n >= n
    ensures k <= -1 ==> k * n <= -n
  {
  }

  /** Quotient and remainder are unique. */
  lemma DivModUnique(x: int, q: int, r: int, n: int)
    requires n > 0 && 0 <= r < n && x == q * n + r
    ensures x / n == q && x % n == r
  {
    var q' := x / n;
    var r' := x % n;
    assert x == n * q' + r';
    assert (q - q') * n == r' - r;
    MultipleGap(q - q', n);
  }

  /** Reducing a summand first does not change a residue. */
  lemma ModOfSum(x: int, y: int, n: int)
    requires n > 0
    ensures (x % n + y) % n == (x + y) % n
  {
    var s := x % n + y;
    assert s == (s / n) * n + s % n;
    assert x + y == (x / n + s / n) * n + s % n by {
      assert x == (x / n) * n + x % n;
    }
    DivModUnique(x + y, x / n + s / n, s % n, n);
  }

  lemma ModSmall(x: int, n: int)
    requires 0 <= x < n
    ensures x % n == x
  {
  }

  /** Equal remainders of the same non-zero divisor differ by a whole multiple. */
  lemma ModDifference(x: int, y: int, n: int)
    requires n > 0 && x % n == y % n
    ensures x - y == (x / n - y / n) * n
  {
    assert x == (x / n) * n + x % n;
    assert y == (y / n) * n + y % n;
  }

  /** One step of a counter: the quotient and remainder either stay in step or roll over. */
  lemma DivModStep(x: int, n: int)
    requires n > 0 && x >= 0
    ensures x % n < n - 1 ==> (x + 1) / n == x / n && (x + 1) % n == x % n + 1
    ensures x % n == n - 1 ==> (x + 1) / n == x / n + 1 && (x + 1) % n == 0
  {
    assert x == (x / n) * n + x % n;
    if x % n < n - 1 {
      DivModUnique(x + 1, x / n, x % n + 1, n);
    } else {
      assert x + 1 == (x / n + 1) * n;
      DivModUnique(x + 1, x / n + 1, 0, n);
    }
  }
}
