/** Java primitive integer ranges and the arithmetic the scheduling code relies on. */
module JavaNum {

  const INT_MIN: int := -0x8000_0000
  const INT_MAX: int := 0x7fff_ffff
  const LONG_MIN: int := -0x8000_0000_0000_0000
  const LONG_MAX: int := 0x7fff_ffff_ffff_ffff
  const LONG_MODULUS: int := 0x1_0000_0000_0000_0000

  /** x fits a Java `int` */
  predicate IsInt(x: int) {
    INT_MIN <= x <= INT_MAX
  }

  /** x fits a Java `long` */
  predicate IsLong(x: int) {
    LONG_MIN <= x <= LONG_MAX
  }

  /** `Math.max(a, b)` */
  function Max(a: int, b: int): (r: int)
    ensures r >= a && r >= b
    ensures r == a || r == b
  {
    if a >= b then a else b
  }

  /** Two's-complement reduction of a mathematical integer into the `long` range. */
  function WrapLong(x: int): (r: int)
    ensures IsLong(r)
    ensures (r - x) % LONG_MODULUS == 0
    ensures IsLong(x) ==> r == x
  {
    (x - LONG_MIN) % LONG_MODULUS + LONG_MIN
  }

  /** `a + b` on two Java `long` values, wrapping on overflow. */
  function AddLong(a: int, b: int): (r: int)
    requires IsLong(a) && IsLong(b)
    ensures IsLong(r)
    ensures a + b <= LONG_MAX && a + b >= LONG_MIN ==> r == a + b
    ensures a + b > LONG_MAX ==> r == a + b - LONG_MODULUS
    ensures a + b < LONG_MIN ==> r == a + b + LONG_MODULUS
  {
    WrapLong(a + b)
  }

  /** `Long.compare(x, y)`, which is also what `x.compareTo(y)` returns for boxed longs. */
  function CompareLong(x: int, y: int): (r: int)
    ensures -1 <= r <= 1
    ensures r < 0 <==> x < y
    ensures r == 0 <==> x == y
    ensures r > 0 <==> x > y
  {
    if x < y then -1 else if x == y then 0 else 1
  }

  // Facts about `%` with a positive divisor. Java's `%` truncates toward zero
  // and Dafny's is Euclidean; the two agree on non-negative operands, which is
  // the only way the modelled code uses it.

  lemma MulAtLeast(d: int, n: int)
    requires d >= 1 && n > 0
    ensures d * n >= n
  {
  }

  lemma ZeroQuotient(d: int, n: int)
    requires n > 0 && -n < d * n < n
    ensures d == 0
  {
    if d >= 1 {
      MulAtLeast(d, n);
    } else if d <= -1 {
      MulAtLeast(-d, n);
    }
  }

  /** The remainder is determined by any quotient/remainder split of a. */
  lemma ModUnique(a: int, n: int, q: int, r: int)
    requires n > 0 && a == q * n + r && 0 <= r < n
    ensures a % n == r
  {
    var q' := a / n;
    var r' := a % n;
    assert a == q' * n + r';
    assert (q - q') * n == r' - r;
    ZeroQuotient(q - q', n);
  }

  /** Adding a multiple of n does not change the remainder. */
  lemma ModShift(x: int, q: int, n: int)
    requires n > 0
    ensures (x + q * n) % n == x % n
  {
    var q2 := x / n;
    var r := x % n;
    assert x == q2 * n + r;
    assert x + q * n == (q2 + q) * n + r;
    ModUnique(x + q * n, n, q2 + q, r);
  }

  /** Reducing before adding k gives the same remainder as adding first. */
  lemma ModAddReduced(a: int, n: int, k: int)
    requires n > 0
    ensures (a % n + k) % n == (a + k) % n
  {
    var q := a / n;
    assert a == q * n + a % n;
    assert a + k == (a % n + k) + q * n;
    ModShift(a % n + k, q, n);
  }

  /** Stepping a cursor modulo n: unchanged below n, wrapped to 0 at n. */
  lemma ModStep(a: int, n: int)
    requires n > 0 && 0 <= a
    ensures a < n ==> a % n == a
    ensures a == n ==> a % n == 0
  {
    if a < n {
      ModUnique(a, n, 0, a);
    } else if a == n {
      ModUnique(a, n, 1, 0);
    }
  }
}
