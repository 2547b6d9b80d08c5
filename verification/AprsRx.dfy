/** The received APRS packet and its printed form (AprsPacket in src/apps/ui_aprs_rx.cpp). */
module AprsRx {
  import opened Bits

  const SPACE: byte := 0x20
  const DASH: byte := 0x2D
  const COMMA: byte := 0x2C
  const COLON: byte := 0x3A
  const GREATER: byte := 0x3E

  const CAPACITY: nat := 256
  const DESTINATION_START: nat := 0
  const SOURCE_START: nat := 7
  const DIGIPEATER_START: nat := 14
  const ADDRESS_SIZE: nat := 7

  datatype AddressType = Source | Destination | Repeater

  /** One or two decimal digits; an SSID is at most 15. */
  function Decimal(n: byte): seq<byte> {
    if n < 10 then [0x30 + n] else [0x31, 0x30 + n - 10]
  }

  /** A digipeater always shows its SSID, the end points only a nonzero one. */
  function SsidText(ssid: byte, kind: AddressType): seq<byte> {
    if ssid != 0 || kind == Repeater then [DASH] + Decimal(ssid) else []
  }

  function SsidOf(octet: byte): byte { (octet >> 1) & 0x0F }

  /** The extension bit is clear in all but the last address. */
  predicate Extends(octet: byte) { octet & 0x01 == 0 }

  /** The text of the first `n` octets of the address at `start`, as far as they precede the FCS. */
  function AddressPrefix(frame: seq<byte>, start: nat, kind: AddressType, n: nat): seq<byte>
    requires n <= ADDRESS_SIZE && (n == 0 || start + n <= |frame| - 2)
  {
    if n == 0 then []
    else
      var text, octet := AddressPrefix(frame, start, kind, n - 1), frame[start + n - 1];
      if n == 7 then text + SsidText(SsidOf(octet), kind)
      else if octet >> 1 != SPACE then text + [octet >> 1] else text
  }

  /** How many octets of the address at `start` precede the FCS. */
  function AddressReach(frame: seq<byte>, start: nat): (n: nat)
    ensures n <= ADDRESS_SIZE && (n == 0 || start + n <= |frame| - 2)
  {
    if start + ADDRESS_SIZE <= |frame| - 2 then ADDRESS_SIZE
    else if start <= |frame| - 2 then |frame| - 2 - start else 0
  }

  function AddressText(frame: seq<byte>, start: nat, kind: AddressType): seq<byte> {
    AddressPrefix(frame, start, kind, AddressReach(frame, start))
  }

  /** Another address follows the one at `start`. */
  predicate HasMore(frame: seq<byte>, start: nat) {
    AddressReach(frame, start) == ADDRESS_SIZE && Extends(frame[start + 6])
  }

  /** The digipeaters from `position` on, separated by commas. */
  function RepeatersFrom(frame: seq<byte>, position: nat): seq<byte>
    decreases |frame| - position
  {
    AddressText(frame, position, Repeater) +
    (if HasMore(frame, position) then [COMMA] + RepeatersFrom(frame, position + ADDRESS_SIZE) else [])
  }

  function RepeaterCount(frame: seq<byte>, position: nat): nat
    decreases |frame| - position
  {
    1 + (if HasMore(frame, position) then RepeaterCount(frame, position + ADDRESS_SIZE) else 0)
  }

  function DigipeaterText(frame: seq<byte>): seq<byte> {
    if HasMore(frame, SOURCE_START) then [COMMA] + RepeatersFrom(frame, DIGIPEATER_START) else []
  }

  function Digipeaters(frame: seq<byte>): nat {
    if HasMore(frame, SOURCE_START) then RepeaterCount(frame, DIGIPEATER_START) else 0
  }

  /** Past the addresses, the control octet and the PID. */
  function InformationStart(frame: seq<byte>): nat {
    DIGIPEATER_START + Digipeaters(frame) * ADDRESS_SIZE + 2
  }

  function InformationText(frame: seq<byte>): seq<byte> {
    if InformationStart(frame) <= |frame| - 2 then frame[InformationStart(frame)..|frame| - 2] else []
  }

  /** SRC>DEST,DIGI:information. */
  function StreamText(frame: seq<byte>): seq<byte> {
    AddressText(frame, SOURCE_START, Source) + [GREATER] + AddressText(frame, DESTINATION_START, Destination) +
    DigipeaterText(frame) + [COLON] + InformationText(frame)
  }

  /** On arbitrary octets: every digipeater the walk goes past lies wholly in front of the FCS, so
      the walk stays inside the packet. */
  lemma {:induction false} WalkStaysInside(frame: seq<byte>, position: nat)
    ensures var n := RepeaterCount(frame, position);
            n >= 1 && (n == 1 || position + (n - 1) * ADDRESS_SIZE <= |frame| - 2)
    decreases |frame| - position
  {
    if HasMore(frame, position) {
      WalkStaysInside(frame, position + ADDRESS_SIZE);
    }
  }

  method FormatSsid(ssid: byte, kind: AddressType) returns (text: seq<byte>)
    ensures text == SsidText(ssid, kind)
  {
    text := [];
    if ssid != 0 || kind == Repeater {
      text := text + [DASH];
      if ssid < 10 {
        text := text + [0x30 + ssid];
      } else {
        text := text + [0x31];
        text := text + [0x30 + ssid - 10];
      }
    }
  }

  class AprsPacket {
    const payload: array<byte>
    var payloadSize: nat

    ghost predicate Valid()
      reads this
    {
      payload.Length == CAPACITY && payloadSize <= CAPACITY
    }

    ghost function Frame(): seq<byte>
      reads this, payload
      requires Valid()
    {
      payload[..payloadSize]
    }

    constructor ()
      ensures Valid() && payloadSize == 0 && fresh(payload)
    {
      payload := new byte[CAPACITY];
      payloadSize := 0;
    }

    method SetBytes(data: seq<byte>)
      requires Valid()
      modifies this, payload
      ensures Valid()
      ensures Frame() == if |data| <= 256 then data else data[..256]
    {
      var n := if |data| < CAPACITY then |data| else CAPACITY;
      for i := 0 to n
        invariant payload[..i] == data[..i]
      {
        payload[i] := data[i];
        assert payload[..i + 1] == payload[..i] + [data[i]];
      }
      payloadSize := n;
    }

    method ParseAddress(start: nat, kind: AddressType) returns (hasMore: bool, out: seq<byte>)
      requires Valid()
      ensures hasMore == HasMore(Frame(), start)
      ensures out == AddressText(Frame(), start, kind)
    {
      hide SsidText, SsidOf, Extends;
      hasMore, out := false, [];
      if payloadSize < 2 {
        return;
      }
      var limit := payloadSize - 2;
      ghost var frame := Frame();
      var i := start;
      while i < start + ADDRESS_SIZE && i < limit
        invariant start <= i <= start + ADDRESS_SIZE && (i == start || i <= limit)
        invariant out == AddressPrefix(frame, start, kind, i - start)
        invariant hasMore == (i - start == ADDRESS_SIZE && Extends(frame[start + 6]))
      {
        var octet := payload[i];
        assert octet == frame[i];
        if i - start == 6 {
          hasMore := Extends(octet);
          var ssid := SsidOf(octet);
          var suffix := FormatSsid(ssid, kind);
          out := out + suffix;
        } else {
          var c := octet >> 1;
          if c != SPACE {
            out := out + [c];
          }
        }
        i := i + 1;
      }
    }

    method GetDigipeatersFormatted() returns (repeaters: seq<byte>)
      requires Valid()
      ensures repeaters == DigipeaterText(Frame())
    {
      ghost var frame := Frame();
      var hasMore, scratch := ParseAddress(SOURCE_START, Repeater);
      if !hasMore {
        return [];
      }
      var position := DIGIPEATER_START;
      repeaters := [COMMA];
      while hasMore
        invariant repeaters + (if hasMore then RepeatersFrom(frame, position) else []) == DigipeaterText(frame)
        invariant hasMore ==> position + 2 <= |frame|
        decreases if hasMore then |frame| - position else 0
      {
        ghost var before := repeaters;
        hasMore, scratch := ParseAddress(position, Repeater);
        repeaters := repeaters + scratch;
        if hasMore {
          repeaters := repeaters + [COMMA];
        }
        ghost var rest := if hasMore then RepeatersFrom(frame, position + ADDRESS_SIZE) else [];
        assert repeaters + rest == before + (scratch + if hasMore then [COMMA] + rest else []);
        position := position + ADDRESS_SIZE;
      }
    }

    method GetNumberOfDigipeaters() returns (repeaters: nat)
      requires Valid()
      ensures repeaters == Digipeaters(Frame())
    {
      ghost var frame := Frame();
      var hasMore, scratch := ParseAddress(SOURCE_START, Repeater);
      var position := DIGIPEATER_START;
      repeaters := 0;
      while hasMore
        invariant repeaters + (if hasMore then RepeaterCount(frame, position) else 0) == Digipeaters(frame)
        invariant hasMore ==> position + 2 <= |frame|
        decreases if hasMore then |frame| - position else 0
      {
        hasMore, scratch := ParseAddress(position, Repeater);
        position := position + ADDRESS_SIZE;
        repeaters := repeaters + 1;
      }
    }

    method GetInformationTextFormatted() returns (text: seq<byte>)
      requires Valid()
      ensures text == InformationText(Frame())
    {
      text := [];
      if payloadSize < 2 {
        return;
      }
      ghost var frame := Frame();
      var end := payloadSize - 2;
      var digipeaters := GetNumberOfDigipeaters();
      var i := DIGIPEATER_START + digipeaters * ADDRESS_SIZE + 2;
      ghost var start := i;
      while i < end
        invariant start <= i && (start <= end ==> i <= end)
        invariant text == if start <= end then frame[start..i] else []
      {
        assert payload[i] == frame[i];
        text := text + [payload[i]];
        i := i + 1;
      }
    }

    method GetStreamText() returns (text: seq<byte>)
      requires Valid()
      ensures text == StreamText(Frame())
    {
      var more, src := ParseAddress(SOURCE_START, Source);
      var dest;
      more, dest := ParseAddress(DESTINATION_START, Destination);
      var digipeaters := GetDigipeatersFormatted();
      var information := GetInformationTextFormatted();
      text := src + [GREATER] + dest + digipeaters + [COLON] + information;
    }
  }
}
