/** Fixed-width machine words as bounded integers, with wrapping addition and bitwise operations. */
module Bits {

  type Byte = x: int | 0 <= x < 256
  type Word = x: int | 0 <= x < 0x1_0000_0000

  function Pow2(n: nat): (r: nat)
    ensures r >= 1
  {
    if n == 0 then 1 else 2 * Pow2(n - 1)
  }

  lemma Pow2At32()
    ensures Pow2(32) == 0x1_0000_0000
  {
    assert Pow2(12) == 0x1000;
    assert Pow2(22) == 0x40_0000;
  }

  /** Bitwise exclusive or of the low n bits. */
  function XorBits(x: nat, y: nat, n: nat): (r: nat)
    ensures r < Pow2(n)
  {
    if n == 0 then 0 else (if x % 2 == y % 2 then 0 else 1) + 2 * XorBits(x / 2, y / 2, n - 1)
  }

  /** Bitwise and of the low n bits. */
  function AndBits(x: nat, y: nat, n: nat): (r: nat)
    ensures r < Pow2(n)
  {
    if n == 0 then 0 else (if x % 2 == 1 && y % 2 == 1 then 1 else 0) + 2 * AndBits(x / 2, y / 2, n - 1)
  }

  function XorByte(x: Byte, y: Byte): Byte
  {
    assert Pow2(8) == 256;
    XorBits(x, y, 8)
  }

  function Xor(x: Word, y: Word): Word
  {
    Pow2At32();
    XorBits(x, y, 32)
  }

  function And(x: Word, y: Word): Word
  {
    Pow2At32();
    AndBits(x, y, 32)
  }

  function Not(x: Word): Word { 0x1_0000_0000 - 1 - x }

  /** 32-bit wrapping addition. */
  function Add(x: Word, y: Word): Word { if x + y < 0x1_0000_0000 then x + y else x + y - 0x1_0000_0000 }

  /** The value a 64-bit counter shows for x. */
  function Wrap64(x: nat): (r: nat)
    ensures r < 0x1_0000_0000_0000_0000
  {
    if x < 0x1_0000_0000_0000_0000 then x else Wrap64(x - 0x1_0000_0000_0000_0000)
  }

  lemma {:induction false} Wrap64Add(x: nat, y: nat)
    ensures Wrap64(Wrap64(x) + y) == Wrap64(x + y)
  {
    if x >= 0x1_0000_0000_0000_0000 {
      Wrap64Add(x - 0x1_0000_0000_0000_0000, y);
    }
  }

  lemma {:induction false} Wrap64Times8(x: nat)
    ensures Wrap64(Wrap64(x) * 8) == Wrap64(8 * x)
  {
    if x >= 0x1_0000_0000_0000_0000 {
      var y := x - 0x1_0000_0000_0000_0000;
      Wrap64Times8(y);
      Wrap64Multiple(8 * y, 8);
    }
  }

  lemma {:induction false} Wrap64Multiple(x: nat, k: nat)
    ensures Wrap64(x + k * 0x1_0000_0000_0000_0000) == Wrap64(x)
  {
    if k > 0 {
      Wrap64Multiple(x, k - 1);
    }
  }

  /** Rotation right by n places, one place at a time. */
  function Rotr(x: Word, n: nat): Word
  {
    if n == 0 then x else var r := Rotr(x, n - 1); r / 2 + (if r % 2 == 1 then 0x8000_0000 else 0)
  }

  /** Shift right by n places, one place at a time. */
  function Shr(x: Word, n: nat): Word
  {
    if n == 0 then x else Shr(x, n - 1) / 2
  }

  lemma AddOrder(a: Word, b: Word, c: Word, d: Word)
    ensures Add(Add(Add(a, b), c), d) == Add(Add(Add(d, c), b), a)
  {
  }
}
