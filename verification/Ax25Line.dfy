/** What AprsTxFrame (src/apps/ui_aprs_tx.cpp) puts on the line: bit stuffing and NRZI over a list of
    flags and data octets. */
module Ax25Line {
  import opened Bits

  /** One transmitted octet: an HDLC flag, which is never stuffed, or data. */
  datatype Item = Flag | Data(octet: byte)

  const FLAG_OCTET: byte := 0x7E

  /** The levels sent so far, the NRZI line state and the run of ones used for stuffing. */
  datatype Line = Line(levels: seq<bool>, level: bool, ones: nat)

  const QUIET := Line([], false, 0)

  /** A zero flips the line, a one leaves it. */
  function Emit(l: Line, bit: bool): Line {
    var level := if bit then l.level else !l.level;
    Line(l.levels + [level], level, l.ones)
  }

  /** One bit, with a zero stuffed behind the fifth consecutive one unless it is part of a flag. */
  function PushBit(l: Line, bit: bool, isFlag: bool): Line {
    var sent := Emit(l, bit);
    if !bit then sent.(ones := 0)
    else if l.ones + 1 == 5 && !isFlag then Emit(sent, false).(ones := 0)
    else sent.(ones := l.ones + 1)
  }

  /** The first `n` of a list of bits. */
  function PushBits(l: Line, bits: seq<bool>, n: nat, isFlag: bool): Line
    requires n <= |bits|
  {
    if n == 0 then l else PushBit(PushBits(l, bits, n - 1, isFlag), bits[n - 1], isFlag)
  }

  function PushOctet(l: Line, octet: byte, isFlag: bool): Line {
    PushBits(l, LsbBits(octet), 8, isFlag)
  }

  function Push(l: Line, item: Item): Line {
    match item
    case Flag => PushOctet(l, FLAG_OCTET, true)
    case Data(octet) => PushOctet(l, octet, false)
  }

  /** The line after a list of items. */
  function Send(l: Line, items: seq<Item>): Line {
    if items == [] then l else Push(Send(l, items[..|items| - 1]), items[|items| - 1])
  }

  function Flags(n: nat): (r: seq<Item>)
    ensures |r| == n
  {
    seq(n, _ => Flag)
  }

  function Octets(data: seq<byte>): (r: seq<Item>)
    ensures |r| == |data|
  {
    seq(|data|, i requires 0 <= i < |data| => Data(data[i]))
  }

  lemma SendPush(l: Line, items: seq<Item>, item: Item)
    ensures Send(l, items + [item]) == Push(Send(l, items), item)
  {
    assert (items + [item])[..|items|] == items;
  }
}
