/** Bytes and the bit operations the source performs on them. On unsigned values
    a right shift is division and a low mask is remainder by a power of two; `^`
    and `|` are written out bit by bit. */
module Bits {

  type byte = x: int | 0 <= x < 0x100

  function Pow2(k: nat): (p: nat)
    ensures p > 0
  {
    if k == 0 then 1 else 2 * Pow2(k - 1)
  }

  /** `x ^ y` on the low `k` bits. */
  function Xor(x: nat, y: nat, k: nat): (z: nat)
    ensures z < Pow2(k)
  {
    if k == 0 then 0 else (if x % 2 != y % 2 then 1 else 0) + 2 * Xor(x / 2, y / 2, k - 1)
  }

  /** `x | y` on the low `k` bits. */
  function Or(x: nat, y: nat, k: nat): (z: nat)
    ensures z < Pow2(k)
  {
    if k == 0 then 0 else (if x % 2 == 1 || y % 2 == 1 then 1 else 0) + 2 * Or(x / 2, y / 2, k - 1)
  }

  lemma {:induction false} XorZero(x: nat, y: nat, k: nat)
    requires x < Pow2(k) && y < Pow2(k)
    ensures Xor(x, y, k) == 0 <==> x == y
  {
    if k > 0 {
      var a, b := x / 2, y / 2;
      XorZero(a, b, k - 1);
      assert x == 2 * a + x % 2 && y == 2 * b + y % 2;
    }
  }

  lemma {:induction false} OrZero(x: nat, y: nat, k: nat)
    requires x < Pow2(k) && y < Pow2(k)
    ensures Or(x, y, k) == 0 <==> x == 0 && y == 0
  {
    if k > 0 {
      OrZero(x / 2, y / 2, k - 1);
      assert x == 2 * (x / 2) + x % 2 && y == 2 * (y / 2) + y % 2;
    }
  }

  function XorByte(x: byte, y: byte): byte { ByteIsEightBits(); Xor(x, y, 8) }

  function OrByte(x: byte, y: byte): byte { ByteIsEightBits(); Or(x, y, 8) }

  lemma ByteIsEightBits()
    ensures Pow2(8) == 0x100
  {
    assert Pow2(4) == 16;
  }

  /** The accumulated difference stays zero exactly while the bytes agree. */
  lemma DifferenceOfBytes(diff: byte, x: byte, y: byte)
    ensures OrByte(diff, XorByte(x, y)) == 0 <==> diff == 0 && x == y
  {
    ByteIsEightBits();
    XorZero(x, y, 8);
    OrZero(diff, XorByte(x, y), 8);
  }
}
