/** Go's int and time.Duration: 64 bits, two's complement, wrapping. */
module Int64 {
  const MAX64 := 0x7FFF_FFFF_FFFF_FFFF
  const HALF64 := 0x4000_0000_0000_0000
  const TWO64 := 0x1_0000_0000_0000_0000

  function Wrap64(x: int): int {
    (x + 0x8000_0000_0000_0000) % TWO64 - 0x8000_0000_0000_0000
  }

  lemma WrapFits(x: int)
    requires -0x8000_0000_0000_0000 <= x <= MAX64
    ensures Wrap64(x) == x
  {}

  /** Wrapping early or late makes no difference to a sum. */
  lemma WrapInside(x: int, y: int)
    ensures Wrap64(Wrap64(x) + y) == Wrap64(x + y)
  {
    var q := (x + 0x8000_0000_0000_0000) / TWO64;
    assert Wrap64(x) == x - q * TWO64;
    WrapShift(x + y, -q);
  }

  lemma WrapShift(x: int, q: int)
    ensures Wrap64(x + q * TWO64) == Wrap64(x)
  {
    var z := x + 0x8000_0000_0000_0000;
    assert (z + q * TWO64) / TWO64 == z / TWO64 + q;
  }

  lemma WrapScaled(x: int)
    ensures Wrap64(256 * Wrap64(x)) == Wrap64(256 * x)
  {
    var q := (x + 0x8000_0000_0000_0000) / TWO64;
    assert Wrap64(x) == x - q * TWO64;
    assert 256 * Wrap64(x) == 256 * x + (-256 * q) * TWO64;
    WrapShift(256 * x, -256 * q);
  }
}
