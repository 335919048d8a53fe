/** 64-bit unsigned words. */
module Words {
  const MAX_UINT64 := 0xffff_ffff_ffff_ffff
  const TWO_64 := 0x1_0000_0000_0000_0000

  type Word = n: int | 0 <= n < TWO_64
}
