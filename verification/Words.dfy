/** Unsigned 64-bit counters. */
module Words {
  const U64: int := 0x1_0000_0000_0000_0000
  type uint64 = x: int | 0 <= x < 0x1_0000_0000_0000_0000

  /** `++x`, and `fetch_add(1)`. */
  function Inc64(x: uint64): uint64 {
    if x == 0xFFFF_FFFF_FFFF_FFFF then 0 else x + 1
  }

  /** `x += y`. */
  function Add64(x: uint64, y: uint64): uint64 {
    if x + y < U64 then x + y else x + y - U64
  }

  /** A count as a 64-bit counter shows it. */
  function Wrap64(n: nat): uint64 {
    n % U64
  }

  /** A counter that starts at zero and is incremented n times shows Wrap64(n). */
  lemma WrapInc(n: nat)
    ensures Wrap64(n + 1) == Inc64(Wrap64(n))
  {
    var q, r := n / U64, n % U64;
    assert n == q * U64 + r;
    if r == U64 - 1 {
      assert n + 1 == (q + 1) * U64;
    } else {
      assert n + 1 == q * U64 + (r + 1);
    }
  }

  lemma WrapAdd(m: nat, n: nat)
    ensures Wrap64(m + n) == Add64(Wrap64(m), Wrap64(n))
  {
    var sum := m % U64 + n % U64;
    assert m + n == (m / U64 + n / U64) * U64 + sum;
    if sum >= U64 {
      assert m + n == (m / U64 + n / U64 + 1) * U64 + (sum - U64);
    }
  }

  lemma WrapSmall(n: nat)
    requires n < U64
    ensures Wrap64(n) == n
  {
  }

  /** Two's complement: the std::int64_t congruent to x. */
  function Signed64(x: int): int {
    var r := x % U64;
    if r < 0x8000_0000_0000_0000 then r else r - U64
  }

  /** A std::int64_t can hold it. */
  predicate FitsSigned64(x: int) {
    -0x8000_0000_0000_0000 <= x < 0x8000_0000_0000_0000
  }

  /** It is the only congruent number that fits, so what fits stays as it is. */
  lemma SignedIsCongruent(x: int)
    ensures FitsSigned64(Signed64(x))
    ensures exists laps: int :: x == Signed64(x) + Laps(laps)
    ensures FitsSigned64(x) ==> Signed64(x) == x
  {
    var q := x / U64;
    assert x == Signed64(x) + Laps(if x % U64 < 0x8000_0000_0000_0000 then q else q + 1);
  }

  function Laps(n: int): int {
    n * U64
  }

  /** `x += y` on a std::int64_t atomic, which wraps. */
  function AddSigned64(x: int, y: int): int {
    Signed64(x + y)
  }

  lemma AddThenWrap(x: int, y: int)
    ensures AddSigned64(Signed64(x), y) == Signed64(x + y)
  {
    var q := x / U64;
    assert x == q * U64 + x % U64;
    ModShift(Signed64(x) + y, if x % U64 < 0x8000_0000_0000_0000 then q else q + 1);
  }

  lemma ModShift(x: int, q: int)
    ensures (x + q * U64) % U64 == x % U64
  {
    assert x == (x / U64) * U64 + x % U64;
    assert x + q * U64 == (x / U64 + q) * U64 + x % U64;
  }
}
