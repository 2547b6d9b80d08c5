/** The BLE advertising receiver (src/apps/ui_ble_rx.cpp) from decided bits on: the access address
    register and the PDU parser. */
module BleRx {
  import opened Bits
  import opened BleCrc
  import opened BleTx

  const HEADER_BYTES: nat := 2
  const CRC_BYTES: nat := 3
  const MAX_PAYLOAD_BYTES: nat := 37
  const MAX_BITS: nat := (HEADER_BYTES + MAX_PAYLOAD_BYTES + CRC_BYTES) * 8

  // ----- octets out of bits

  /** The value of bit `i` of an octet. */
  function Weight(i: nat): byte
    requires i < 8
  {
    if i == 0 then 0x01 else if i == 1 then 0x02 else if i == 2 then 0x04 else if i == 3 then 0x08
    else if i == 4 then 0x10 else if i == 5 then 0x20 else if i == 6 then 0x40 else 0x80
  }

  function Set(b: byte, i: nat, bit: bool): byte
    requires i < 8
  {
    if bit then b | Weight(i) else b
  }

  /** The octet whose lowest `n` bits are those at `from`, lowest first. */
  function OctetAt(bits: seq<bool>, from: nat, n: nat): byte
    requires n <= 8 && from + n <= |bits|
  {
    if n == 0 then 0 else Set(OctetAt(bits, from, n - 1), n - 1, bits[from + n - 1])
  }

  function Packed(bits: seq<bool>): (r: seq<byte>)
    ensures |r| == |bits| / 8
  {
    seq(|bits| / 8, i requires 0 <= i < |bits| / 8 => OctetAt(bits, 8 * i, 8))
  }

  /** The packing loop of try_parse. */
  method Pack(bits: seq<bool>) returns (bytes: seq<byte>)
    ensures bytes == Packed(bits)
  {
    hide Set;
    bytes := seq(|bits| / 8, _ => 0);
    for i := 0 to |bytes| * 8
      invariant |bytes| == |bits| / 8
      invariant forall j :: 0 <= j < |bytes| ==>
        bytes[j] == OctetAt(bits, 8 * j, if i <= 8 * j then 0 else if 8 * j + 8 <= i then 8 else i - 8 * j)
    {
      assert i == 8 * (i / 8) + i % 8;
      bytes := bytes[i / 8 := Set(bytes[i / 8], i % 8, bits[i])];
    }
  }

  // ----- the packet

  datatype Packet = Packet(ptype: byte, payloadLen: nat, mac: seq<byte>, data: seq<byte>, crc: Word,
                           computedCrc: Word, channel: int)

  datatype Outcome = Rejected | Accepted(packet: Packet)

  function TypeOf(b: byte): byte { b & 0x0F }

  function LengthOf(b: byte): nat { (b & 0x3F) as nat }

  /** Three octets, low one first. */
  function Assembled(a: byte, b: byte, c: byte): Word {
    Word((a as bv24) | ((b as bv24) << 8) | ((c as bv24) << 16))
  }

  /** What the table register starts with. */
  function Preset(): Word { Reordered(CRC_INIT) }

  /** The parser behind dewhitening. */
  function Parsed(bytes: seq<byte>, channel: int): Outcome {
    if |bytes| < HEADER_BYTES then Rejected
    else
      var ptype, len := TypeOf(bytes[0]), LengthOf(bytes[1]);
      var body := len + HEADER_BYTES;
      if ptype >= 7 || len < 6 || len > MAX_PAYLOAD_BYTES || |bytes| < body + CRC_BYTES then Rejected
      else
        var received := Assembled(bytes[body], bytes[body + 1], bytes[body + 2]);
        var computed := TableRun(Preset(), bytes[..body]);
        if computed != received then Rejected
        else Accepted(Packet(ptype, len, Flipped(bytes[2..8]), bytes[8..8 + (len - 6)], received, computed, channel))
  }

  function Heard(raw: seq<bool>): seq<bool> { if |raw| <= MAX_BITS then raw else raw[..MAX_BITS] }

  /** What the bits behind an access address decode to. */
  function Received(raw: seq<bool>, channel: int): Outcome {
    if |Heard(raw)| < HEADER_BYTES * 8 + CRC_BYTES * 8 then Rejected
    else Parsed(Packed(Whitened(Heard(raw), channel)), channel)
  }

  // ----- the printed address

  const HEX_DIGITS := "0123456789ABCDEF"

  function HexDigit(n: byte): char
    requires n < 16
  {
    HEX_DIGITS[n as nat]
  }

  lemma NibblesFit(b: byte)
    ensures b >> 4 < 16 && b & 0xF < 16
  {
  }

  /** to_string_hex at length 2. */
  function HexText(b: byte): (r: string)
    ensures |r| == 2
  {
    NibblesFit(b);
    [HexDigit(b >> 4), HexDigit(b & 0xF)]
  }

  function AddressText(mac: seq<byte>): string {
    if mac == [] then ""
    else
      AddressText(mac[..|mac| - 1]) + (if |mac| > 1 then ":" else "") + HexText(mac[|mac| - 1])
  }

  method MacString(mac: seq<byte>) returns (s: string)
    ensures s == AddressText(mac)
  {
    s := "";
    for i := 0 to |mac|
      invariant s == AddressText(mac[..i])
    {
      assert mac[..i + 1][..i] == mac[..i];
      if i != 0 {
        s := s + ":";
      }
      s := s + HexText(mac[i]);
    }
    assert mac[..|mac|] == mac;
  }

  class Decoder {
    var channel: int
    var packetsDecoded: nat
    /** The packets the handler has been called with. */
    var delivered: seq<Packet>

    constructor (channel: int)
      ensures this.channel == channel && packetsDecoded == 0 && delivered == []
    {
      this.channel, packetsDecoded, delivered := channel, 0, [];
    }

    method TryParse(bits: seq<bool>) returns (ok: bool)
      modifies this
      ensures channel == old(channel)
      ensures match Received(bits, channel)
              case Rejected => !ok && delivered == old(delivered) && packetsDecoded == old(packetsDecoded)
              case Accepted(packet) =>
                ok && delivered == old(delivered) + [packet] && packetsDecoded == old(packetsDecoded) + 1
    {
      hide Whitened, Packed, TableRun, TypeOf, LengthOf, Assembled, Shows, PresetStages, Reordered;
      var raw := [];
      var s := 0;
      while s < MAX_BITS && s < |bits|
        invariant 0 <= s <= MAX_BITS && s <= |bits|
        invariant raw == bits[..s]
      {
        raw := raw + [bits[s]];
        s := s + 1;
      }
      assert raw == Heard(bits);
      if |raw| < HEADER_BYTES * 8 + CRC_BYTES * 8 {
        return false;
      }
      var dewhitened := Whiten(raw, channel);
      var bytes := Pack(dewhitened);
      if |bytes| < HEADER_BYTES {
        return false;
      }
      var ptype, len := TypeOf(bytes[0]), LengthOf(bytes[1]);
      if ptype >= 7 {
        return false;
      }
      if len < 6 || len > MAX_PAYLOAD_BYTES {
        return false;
      }
      var body := len + HEADER_BYTES;
      if |bytes| < body + CRC_BYTES {
        return false;
      }
      var init := CrcInitReorder(CRC_INIT);
      var computed := TableCrc(bytes[..body], init);
      var received := Assembled(bytes[body], bytes[body + 1], bytes[body + 2]);
      if computed != received {
        return false;
      }
      var mac := [];
      for i := 0 to 6
        invariant |mac| == i && forall k :: 0 <= k < i ==> mac[k] == bytes[7 - k]
      {
        mac := mac + [bytes[7 - i]];
      }
      assert mac == Flipped(bytes[2..8]);
      packetsDecoded := packetsDecoded + 1;
      delivered := delivered + [Packet(ptype, len, mac, bytes[8..8 + (len - 6)], received, computed, channel)];
      return true;
    }
  }

  // ----- the sliding access address register

  const ACCESS_WORD: bv32 := 0x8E89BED6

  function Slide(reg: bv32, bit: bool): bv32 { (reg >> 1) | (if bit then 0x80000000 else 0) }

  function Register(bits: seq<bool>): bv32 {
    if bits == [] then 0 else Slide(Register(bits[..|bits| - 1]), bits[|bits| - 1])
  }
}
