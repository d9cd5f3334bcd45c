/** Fixed-width unsigned integers of the C sources, as ranges of `int`.
    Arithmetic on them is the unbounded arithmetic of `int`; wherever the source
    relies on wrap-around the reduction is written out. */
module Words {
  type byte = x: int | 0 <= x < 0x100
  type uint16 = x: int | 0 <= x < 0x1_0000
  type uint32 = x: int | 0 <= x < 0x1_0000_0000

  const WORD16 := 0x1_0000
  const WORD := 0x1_0000_0000

  /** A number below 256 is the value of its bits. */
  lemma ByteBits(i: int)
    requires 0 <= i < 256
    ensures (i as bv8) as int == i
  {
    ByteBitsModulo(i);
    SameByte((i as bv8) as int, i);
  }

  lemma ByteBitsModulo(i: int)
    requires 0 <= i < 256
    ensures (i as bv8) as int % 256 == i % 256
  {
  }

  lemma SameByte(x: int, y: int)
    requires 0 <= x < 256 && 0 <= y < 256 && x % 256 == y % 256
    ensures x == y
  {
  }
}
