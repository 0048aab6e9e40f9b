/** The option type and the machine-integer bounds shared by every module. */
module Wrappers {

  datatype Option<+T> = None | Some(value: T)

  const U32_LIMIT: nat := 0x1_0000_0000
  const U64_LIMIT: nat := 0x1_0000_0000_0000_0000

  newtype Byte = x: int | 0 <= x < 256

  type U32 = x: nat | x < U32_LIMIT

  /** `u64::wrapping_add`. */
  function WrappingAdd64(x: nat, y: nat): nat {
    (x + y) % U64_LIMIT
  }

  lemma NoWrap(x: nat, y: nat)
    requires x + y < U64_LIMIT
    ensures WrappingAdd64(x, y) == x + y
  {
  }

  // ---- Remainders ----

  lemma MultipleGrows(n: int, d: int)
    requires n > 0
    ensures d >= 1 ==> n * d >= n
    ensures d <= -1 ==> n * d <= -n
  {
    if d >= 1 {
      assert n * (d - 1) >= 0;
      assert n * d == n * (d - 1) + n;
    } else if d <= -1 {
      assert n * (-1 - d) >= 0;
      assert n * d == -n - n * (-1 - d);
    }
  }

  lemma Distributes(n: int, a: int, b: int)
    ensures n * (a + b) == n * a + n * b
  {
  }

  /** Quotient and remainder are determined by the sum they make. */
  lemma DivisionUnique(n: int, q: int, r: int, p: int, s: int)
    requires 0 <= r < n && 0 <= s < n && n * q + r == n * p + s
    ensures r == s && q == p
  {
    assert n * (q - p) == n * q - n * p;
    MultipleGrows(n, q - p);
  }

  lemma ModUnique(x: nat, n: nat, q: nat, r: nat)
    requires r < n && x == n * q + r
    ensures x % n == r && x / n == q
  {
    assert x == n * (x / n) + x % n;
    DivisionUnique(n, q, r, x / n, x % n);
  }

  lemma ModOnce(x: nat, n: nat)
    requires 0 < n <= x < 2 * n
    ensures x % n == x - n
  {
    ModUnique(x, n, 1, x - n);
  }

  lemma ModSmall(x: nat, n: nat)
    requires x < n
    ensures x % n == x
  {
    ModUnique(x, n, 0, x);
  }

  lemma ModAdd(x: nat, y: nat, n: nat)
    requires n > 0
    ensures (x + y) % n == (x % n + y) % n
  {
    var z := x % n + y;
    assert x == n * (x / n) + x % n;
    assert z == n * (z / n) + z % n;
    Distributes(n, x / n, z / n);
    ModUnique(x + y, n, x / n + z / n, z % n);
  }

  /** `saturating_add`/`saturating_mul`: clamp an exact result to the largest value below `limit`. */
  function Saturate(x: nat, limit: nat): nat
    requires limit > 0
  {
    if x < limit then x else limit - 1
  }
}
