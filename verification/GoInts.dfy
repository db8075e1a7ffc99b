/**
 The machine integers the node computes with: Go's `int` is a signed 64-bit
 number, conversions and additions wrap around modulo 2^64.
 */
module GoInts {
  const TWO_32: int := 0x1_0000_0000
  const TWO_63: int := 0x8000_0000_0000_0000
  const TWO_64: int := 0x1_0000_0000_0000_0000

  type byte = x: int | 0 <= x < 256
  type uint64 = x: int | 0 <= x < 0x1_0000_0000_0000_0000
  type int64 = x: int | -0x8000_0000_0000_0000 <= x < 0x8000_0000_0000_0000

  /** A byte slice: its length is a Go `int`. */
  type Buffer = s: seq<byte> | |s| < 0x8000_0000_0000_0000

  /** `uint64(x)`: the low 64 bits of x. */
  function ToUint64(x: int): (r: uint64)
    ensures 0 <= x < TWO_64 ==> r == x
  {
    if 0 <= x < TWO_64 then x else x % TWO_64
  }

  /** `int64(x)`: the low 64 bits of x, read as two's complement. */
  function ToInt64(x: int): (r: int64)
    ensures -TWO_63 <= x < TWO_63 ==> r == x
  {
    var u := ToUint64(x);
    if u < TWO_63 then u else u - TWO_64
  }

  /** `int32(x)`: the low 32 bits of x, read as two's complement. */
  function ToInt32(x: int): (r: int)
    ensures -0x8000_0000 <= r < 0x8000_0000
    ensures -0x8000_0000 <= x < 0x8000_0000 ==> r == x
  {
    var u := x % TWO_32;
    if u < 0x8000_0000 then u else u - TWO_32
  }
}
