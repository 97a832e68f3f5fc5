// Machine integers as the Go sources use them.
module Words {
  // 2^64: one more than the largest uint64.
  const WORD: int := 0x1_0000_0000_0000_0000

  newtype uint64 = x: int | 0 <= x < 0x1_0000_0000_0000_0000

  // 2^31 and 2^32, the limits of an int32.
  const HALF32: int := 0x8000_0000
  const FULL32: int := 0x1_0000_0000

  /** The int32 that a Go conversion int32(x) keeps of a wider integer: the low 32 bits, read as two's complement. */
  function Wrap32(x: int): (r: int)
    ensures -HALF32 <= r < HALF32
    ensures -HALF32 <= x < HALF32 <==> r == x
  {
    (x + HALF32) % FULL32 - HALF32
  }

  /** Two integers keep the same 32 bits exactly when they are a multiple of 2^32 apart. */
  lemma Wrap32Equal(x: int, y: int)
    ensures Wrap32(x) == Wrap32(y) <==> (y - x) % FULL32 == 0
  {
    var a, b := (x + HALF32) % FULL32, (y + HALF32) % FULL32;
    var p, q := (x + HALF32) / FULL32, (y + HALF32) / FULL32;
    assert y - x == (q - p) * FULL32 + (b - a);
  }
}
