/** Machine integers of the firmware and the little-endian fields of the wire format. */
module Bytes {
  type byte = x: int | 0 <= x < 0x100
  type u16 = x: int | 0 <= x < 0x1_0000
  type i16 = x: int | -0x8000 <= x < 0x8000
  type u32 = x: int | 0 <= x < 0x1_0000_0000

  const TWO_16 := 0x1_0000
  const TWO_32 := 0x1_0000_0000

  function PutU16(v: u16): seq<byte> {
    [v % 256, v / 256]
  }

  function PutU32(v: u32): seq<byte> {
    [v % 256, v / 0x100 % 256, v / 0x1_0000 % 256, v / 0x100_0000]
  }

  function GetU16(p: seq<byte>, at: nat): u16
    requires at + 2 <= |p|
  {
    p[at] as int + 0x100 * (p[at + 1] as int)
  }

  function GetU32(p: seq<byte>, at: nat): u32
    requires at + 4 <= |p|
  {
    p[at] as int + 0x100 * (p[at + 1] as int) + 0x1_0000 * (p[at + 2] as int) + 0x100_0000 * (p[at + 3] as int)
  }

  /** The casts between int16_t and uint16_t. */
  function ToUnsigned(v: i16): u16 {
    if v < 0 then v + 0x1_0000 else v
  }

  function ToSigned(v: u16): i16 {
    if v >= 0x8000 then v - 0x1_0000 else v
  }

  /** ++counter on a uint32_t. */
  function Increment(v: u32): u32 {
    (v + 1) % TWO_32
  }
}
