/** Octets and their bits, in the two orders the protocols put them on the wire. */
module Bits {

  type byte = bv8

  /** The eight bits of an octet, least significant first (HDLC, BLE and ACARS order). */
  function LsbBits(b: byte): (r: seq<bool>)
    ensures |r| == 8
  {
    [b & 0x01 != 0, b & 0x02 != 0, b & 0x04 != 0, b & 0x08 != 0,
     b & 0x10 != 0, b & 0x20 != 0, b & 0x40 != 0, b & 0x80 != 0]
  }

  /** The eight bits of an octet, most significant first (Mode S order). */
  function MsbBits(b: byte): (r: seq<bool>)
    ensures |r| == 8
  {
    [b & 0x80 != 0, b & 0x40 != 0, b & 0x20 != 0, b & 0x10 != 0,
     b & 0x08 != 0, b & 0x04 != 0, b & 0x02 != 0, b & 0x01 != 0]
  }

  /** The bits of a list of octets in transmission order, each octet least significant bit first. */
  function AllLsbBits(bytes: seq<byte>): (r: seq<bool>)
    ensures |r| == 8 * |bytes|
  {
    if bytes == [] then [] else AllLsbBits(bytes[..|bytes| - 1]) + LsbBits(bytes[|bytes| - 1])
  }

  /** The bits of a list of octets, each octet most significant bit first. */
  function AllMsbBits(bytes: seq<byte>): (r: seq<bool>)
    ensures |r| == 8 * |bytes|
  {
    if bytes == [] then [] else AllMsbBits(bytes[..|bytes| - 1]) + MsbBits(bytes[|bytes| - 1])
  }

  /** An LSB-first shift register: shift right, the new bit comes in at the top. */
  function ShiftRight(b: byte, bit: bool): byte {
    (b >> 1) | (if bit then 0x80 else 0x00)
  }

  /** An MSB-first shift register: shift left, the new bit comes in at the bottom. */
  function ShiftLeft(b: byte, bit: bool): byte {
    (b << 1) | (if bit then 0x01 else 0x00)
  }
}
