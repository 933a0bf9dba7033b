/** Small value types and integer helpers shared by every module of the model. */
module Prelude {
  datatype Option<+T> = None | Some(value: T)

  /** Two to the thirty-second: the modulus of a cast to `u32`. */
  const TWO_32: int := 0x1_0000_0000
  const TWO_63: int := 0x8000_0000_0000_0000
  const TWO_64: int := 0x1_0000_0000_0000_0000

  function Min(a: int, b: int): int {
    if a <= b then a else b
  }

  function Max(a: int, b: int): int {
    if a >= b then a else b
  }

  /** The nearest number to `x` between `lo` and `hi`; callers keep `lo <= hi`. */
  function Clamp(x: int, lo: int, hi: int): int {
    if x < lo then lo else if x > hi then hi else x
  }

  /** `usize::saturating_sub` and `u32::saturating_sub`. */
  function SatSub(a: nat, b: nat): nat {
    if a >= b then a - b else 0
  }

  /** An integer cast to `u32`: truncation to the low 32 bits. */
  function U32(x: nat): nat {
    x % TWO_32
  }

  lemma QuotientShift(x: int, n: int, k: int)
    requires n > 0
    ensures (x + n * k) / n == x / n + k && (x + n * k) % n == x % n
  {
    var q := x / n;
    var rest := x % n;
    assert x + n * k == n * (q + k) + rest by {
      assert n * (q + k) == n * q + n * k;
    }
    DivisionIsUnique(x + n * k, n, q + k, rest);
  }

  lemma DivisionIsUnique(x: int, n: int, q: int, rest: int)
    requires n > 0 && x == n * q + rest && 0 <= rest < n
    ensures x / n == q && x % n == rest
  {
    var d := x / n - q;
    assert n * d == rest - x % n by {
      assert n * (x / n - q) == n * (x / n) - n * q;
    }
    assert d >= 1 ==> n * d >= n;
    assert d <= -1 ==> n * d <= -n;
  }
}
