/** Machine integers of the C sources.  Dafny checks every operation on a newtype
    against its range, so a verified body in these types cannot overflow. */
module Words {
  newtype i32 = x: int | -0x8000_0000 <= x < 0x8000_0000
  newtype i64 = x: int | -0x8000_0000_0000_0000 <= x < 0x8000_0000_0000_0000

  type byte = x: int | 0 <= x < 256
}
