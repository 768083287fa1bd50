/** Fixed-width words of the source: Go's uint8, uint16, uint32 and uint64. */
module Words {

  newtype byte = x: int | 0 <= x < 0x100
  newtype uint16 = x: int | 0 <= x < 0x1_0000
  newtype uint32 = x: int | 0 <= x < 0x1_0000_0000
  newtype uint64 = x: int | 0 <= x < 0x1_0000_0000_0000_0000

  type bytes = seq<byte>
}
