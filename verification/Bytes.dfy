/** Machine-level values shared by the other modules. A C string is a sequence of
    bytes without its terminating NUL, so "text" values never contain the byte 0. */
module Bytes {
  type byte = b: int | 0 <= b < 0x100
  type uint16 = n: int | 0 <= n < 0x1_0000
  type uint32 = n: int | 0 <= n < 0x1_0000_0000

  datatype Option<+T> = None | Some(value: T)

  /** The bytes of a C string: none of them is the terminator. */
  predicate Text(s: seq<byte>) {
    0 !in s
  }

  function Be16(v: uint16): seq<byte> {
    [v / 0x100, v % 0x100]
  }

  function Be32(v: uint32): seq<byte> {
    [v / 0x100_0000, v / 0x1_0000 % 0x100, v / 0x100 % 0x100, v % 0x100]
  }
}
