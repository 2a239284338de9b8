/** Go's fixed-width integers: two's-complement wrap-around and truncated division. */
module MachineInt {

  const MIN_INT64: int := -0x8000_0000_0000_0000
  const MAX_INT64: int := 0x7fff_ffff_ffff_ffff
  const TWO_TO_64: int := 0x1_0000_0000_0000_0000

  const MAX_INT32: int := 0x7fff_ffff
  const TWO_TO_32: int := 0x1_0000_0000

  type Int64 = x: int | -0x8000_0000_0000_0000 <= x <= 0x7fff_ffff_ffff_ffff

  predicate Fits(x: int) {
    MIN_INT64 <= x <= MAX_INT64
  }

  /** The int64 that a computation with exact value x leaves behind. */
  function Wrap(x: int): (r: Int64)
    ensures Fits(x) ==> r == x
  {
    (x - MIN_INT64) % TWO_TO_64 + MIN_INT64
  }

  /** The conversion int32(x) of a 64-bit int. */
  function ToInt32(x: int): (r: int)
    ensures -MAX_INT32 - 1 <= r <= MAX_INT32
    ensures (r - x) % TWO_TO_32 == 0
  {
    (x + MAX_INT32 + 1) % TWO_TO_32 - MAX_INT32 - 1
  }

  /** An int64 that differs from x by a multiple of 2^64 is the wrapped x. */
  lemma WrapIsUnique(x: int, r: Int64, k: int)
    requires r - x == TWO_TO_64 * k
    ensures Wrap(x) == r
  {
    var q := (x - MIN_INT64) / TWO_TO_64;
    assert Wrap(x) == x - TWO_TO_64 * q;
    assert r - Wrap(x) == TWO_TO_64 * (k + q);
  }

  /** Wrapping an intermediate sum does not change the wrapped final sum. */
  lemma WrapOfSum(a: int, b: int)
    ensures Wrap(Wrap(a) + b) == Wrap(a + b)
  {
    var q := (a - MIN_INT64) / TWO_TO_64;
    assert Wrap(a) == a - TWO_TO_64 * q;
    var p := (Wrap(a) + b - MIN_INT64) / TWO_TO_64;
    assert Wrap(Wrap(a) + b) == Wrap(a) + b - TWO_TO_64 * p;
    WrapIsUnique(a + b, Wrap(Wrap(a) + b), -q - p);
  }

  /** Go's `/` truncates toward zero. */
  function Quotient(a: int, b: int): int
    requires b > 0
  {
    if a >= 0 then a / b else -(-a / b)
  }

  /** Go's `%` takes the sign of the dividend. */
  function Remainder(a: int, b: int): int
    requires b > 0
  {
    if a >= 0 then a % b else -(-a % b)
  }
}
