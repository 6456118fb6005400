// Facts about 64-bit words behind the peepholes.
module Bits {
  import opened Ir

  lemma XorOfNot(x: bv64)
    ensures (!x) ^ x == 0xFFFF_FFFF_FFFF_FFFF && x ^ (!x) == 0xFFFF_FFFF_FFFF_FFFF
  {
  }

  lemma XorZeros(x: bv64)
    ensures 0 ^ x == x && x ^ x == 0
  {
  }

  lemma AShrByZero(x: bv64)
    ensures AShr(x, 0) == x
  {
  }

  // Shifting the low word up and arithmetically down again extends its sign.
  lemma ShiftPair(x: bv64)
    ensures AShr(ShiftLeft(x, 32), 32) == CastTo(INT32, x)
  {
    assert (x << 32) & 0x8000_0000_0000_0000 == 0 <==> x & 0x8000_0000 == 0;
    if x & 0x8000_0000 == 0 {
      assert (x << 32) >> 32 == x & 0xFFFF_FFFF;
    } else {
      assert !((!(x << 32)) >> 32) == x | 0xFFFF_FFFF_0000_0000;
    }
  }

  // With a clearing cast the two agree on non-negative low words only.
  lemma ShiftPairUnsigned(x: bv64)
    ensures AShr(ShiftLeft(x, 32), 32) == CastTo(UINT32, x) <==> x & 0x8000_0000 == 0
  {
  }
}
