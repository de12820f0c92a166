/** Bytes and unsigned integers as the wire formats know them. */
module ByteTypes {

  type Byte = b: int | 0 <= b < 256
  type Bytes = seq<Byte>

  type U16 = n: int | 0 <= n < 0x1_0000
  type U32 = n: int | 0 <= n < 0x1_0000_0000
}
