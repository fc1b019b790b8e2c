/** Checksums and how they are masked before they are stored (util/crc32c.h). */
module Crc32c {
  import opened Bytestrings

  type Word = w: int | 0 <= w < TWO32

  /** crc32c::Value: any function from byte strings to 32-bit words. */
  type Crc = Bytes -> Word

  const MASK_DELTA: Word := 0xa282ead8

  /** Rotate right by 15 bits and add a constant. */
  function Mask(c: Word): Word {
    (c / 0x8000 + c % 0x8000 * 0x2_0000 + MASK_DELTA) % TWO32
  }

  function Unmask(m: Word): Word {
    var rot := (m - MASK_DELTA) % TWO32;
    rot / 0x2_0000 + rot % 0x2_0000 * 0x8000
  }

  lemma {:induction false} UnmaskOfMask(c: Word)
    ensures Unmask(Mask(c)) == c
  {
    var rot := c / 0x8000 + c % 0x8000 * 0x2_0000;
    assert (Mask(c) - MASK_DELTA) % TWO32 == rot;
    assert rot / 0x2_0000 == c % 0x8000 && rot % 0x2_0000 == c / 0x8000;
  }

  lemma {:induction false} MaskOfUnmask(m: Word)
    ensures Mask(Unmask(m)) == m
  {
    var rot := (m - MASK_DELTA) % TWO32;
    var c := Unmask(m);
    assert c / 0x8000 == rot % 0x2_0000 && c % 0x8000 == rot / 0x2_0000;
    assert c / 0x8000 + c % 0x8000 * 0x2_0000 == rot;
  }
}
