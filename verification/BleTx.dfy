/** The BLE advertising transmitter (src/apps/ui_ble_tx.cpp): hex text to bits, the PDU header, CRC and
    whitening. */
module BleTx {
  import opened Bits
  import opened BleCrc

  // ----- hex text

  /** Stands for the -1 that marks any other character. */
  const NOT_HEX: byte := 0xFF

  function HexNibble(c: char): byte {
    match c
    case '0' => 0 case '1' => 1 case '2' => 2 case '3' => 3 case '4' => 4
    case '5' => 5 case '6' => 6 case '7' => 7 case '8' => 8 case '9' => 9
    case 'a' => 10 case 'b' => 11 case 'c' => 12 case 'd' => 13 case 'e' => 14 case 'f' => 15
    case 'A' => 10 case 'B' => 11 case 'C' => 12 case 'D' => 13 case 'E' => 14 case 'F' => 15
    case _ => NOT_HEX
  }

  predicate IsHex(c: char) { HexNibble(c) != NOT_HEX }

  predicate AllHex(s: string) { forall i :: 0 <= i < |s| ==> IsHex(s[i]) }

  /** The hex digits of a text. */
  function Clean(s: string): (r: string)
    ensures AllHex(r)
  {
    if s == [] then []
    else if IsHex(s[|s| - 1]) then Clean(s[..|s| - 1]) + [s[|s| - 1]]
    else Clean(s[..|s| - 1])
  }

  function HexOctet(hi: char, lo: char): byte
    requires IsHex(hi) && IsHex(lo)
  {
    (HexNibble(hi) << 4) | HexNibble(lo)
  }

  /** The octets of an even number of hex digits, in reading order. */
  function HexOctets(clean: string): (r: seq<byte>)
    requires AllHex(clean)
    ensures |r| == |clean| / 2
  {
    seq(|clean| / 2, i requires 0 <= i < |clean| / 2 => HexOctet(clean[2 * i], clean[2 * i + 1]))
  }

  function Flipped<T>(s: seq<T>): (r: seq<T>)
    ensures |r| == |s|
  {
    seq(|s|, i requires 0 <= i < |s| => s[|s| - 1 - i])
  }

  /** At least one and at most `limit` whole octets. */
  predicate Usable(clean: string, limit: nat) {
    |clean| >= 2 && |clean| % 2 == 0 && |clean| <= 2 * limit
  }

  function HexBits(hex: string, flip: bool, limit: nat): seq<bool> {
    if !Usable(Clean(hex), limit) then []
    else
      var octets := HexOctets(Clean(hex));
      AllLsbBits(if flip then Flipped(octets) else octets)
  }

  method KeepHex(hex: string) returns (clean: string)
    ensures clean == Clean(hex)
  {
    clean := "";
    for i := 0 to |hex|
      invariant clean == Clean(hex[..i])
    {
      assert hex[..i + 1][..i] == hex[..i];
      if HexNibble(hex[i]) != NOT_HEX {
        clean := clean + [hex[i]];
      }
    }
    assert hex[..|hex|] == hex;
  }

  /** Reverse the order of the digit pairs. */
  method FlipPairs(clean: string) returns (flipped: string)
    requires |clean| % 2 == 0 && AllHex(clean)
    ensures |flipped| == |clean| && AllHex(flipped)
    ensures HexOctets(flipped) == Flipped(HexOctets(clean))
  {
    hide HexOctet, IsHex;
    flipped := clean;
    var i := 0;
    while i < |clean|
      invariant 0 <= i <= |clean| && i % 2 == 0 && |flipped| == |clean|
      invariant forall k :: |clean| - i <= k < |clean| ==>
        flipped[k] == if k % 2 == 0 then clean[|clean| - 2 - k] else clean[|clean| - k]
    {
      flipped := flipped[|clean| - i - 2 := clean[i]];
      flipped := flipped[|clean| - i - 1 := clean[i + 1]];
      i := i + 2;
    }
    var n := |clean| / 2;
    forall k | 0 <= k < n
      ensures HexOctets(flipped)[k] == HexOctets(clean)[n - 1 - k]
    {
      assert (2 * k) % 2 == 0 && (2 * k + 1) % 2 == 1;
      assert |clean| - 2 - 2 * k == 2 * (n - 1 - k);
    }
  }

  method HexToBits(hex: string, flip: bool, limit: nat) returns (bits: seq<bool>)
    ensures bits == HexBits(hex, flip, limit)
  {
    hide HexOctets, Flipped, Clean;
    var clean := KeepHex(hex);
    if |clean| < 2 || |clean| % 2 != 0 || |clean| > limit * 2 {
      return [];
    }
    if flip {
      clean := FlipPairs(clean);
    }
    bits := PairsToBits(clean);
  }

  /** The last loop of hex_to_bits. */
  method PairsToBits(clean: string) returns (bits: seq<bool>)
    requires AllHex(clean) && |clean| % 2 == 0
    ensures bits == AllLsbBits(HexOctets(clean))
  {
    hide HexOctet, IsHex;
    ghost var octets := HexOctets(clean);
    bits := [];
    var i := 0;
    while i < |clean|
      invariant 0 <= i <= |clean| && i % 2 == 0
      invariant bits == AllLsbBits(octets[..i / 2])
    {
      assert octets[..i / 2 + 1][..i / 2] == octets[..i / 2];
      assert octets[i / 2] == HexOctet(clean[i], clean[i + 1]);
      bits := bits + LsbBits(HexOctet(clean[i], clean[i + 1]));
      i := i + 2;
    }
    assert octets[..|octets|] == octets;
  }

  // ----- the PDU header

  datatype PduType = ADV_IND | ADV_DIRECT_IND | ADV_NONCONN_IND | SCAN_REQ | SCAN_RSP | CONNECT_REQ | ADV_SCAN_IND

  datatype AdvPacket = AdvPacket(channel: int, pduType: PduType, mac: string, advData: string, txadd: int, rxadd: int)

  /** The four type bits, lowest first. */
  function TypeBits(t: PduType): (r: seq<bool>)
    ensures |r| == 4
  {
    match t
    case ADV_IND => [false, false, false, false]
    case ADV_DIRECT_IND => [true, false, false, false]
    case ADV_NONCONN_IND => [false, true, false, false]
    case SCAN_REQ => [true, true, false, false]
    case SCAN_RSP => [false, false, true, false]
    case CONNECT_REQ => [true, false, true, false]
    case ADV_SCAN_IND => [false, true, true, false]
  }

  /** An arithmetic shift right. */
  function Shr(n: int, k: nat): int
    decreases k
  {
    if k == 0 then n else Shr(n, k - 1) / 2
  }

  /** Bit `k` of an integer in two's complement. */
  predicate IntBit(n: int, k: nat) { Shr(n, k) % 2 == 1 }

  function HeaderBits(t: PduType, txadd: int, rxadd: int, len: int): (r: seq<bool>)
    ensures |r| == 16
  {
    TypeBits(t) + [false, false, IntBit(txadd, 0), t.SCAN_RSP? || IntBit(rxadd, 0)] +
    [IntBit(len, 0), IntBit(len, 1), IntBit(len, 2), IntBit(len, 3), IntBit(len, 4), IntBit(len, 5), false, false]
  }

  // ----- whitening

  /** The seven stages before any bit. */
  function Seed(channel: int): (r: seq<bool>)
    ensures |r| == 7
  {
    [true, IntBit(channel, 5), IntBit(channel, 4), IntBit(channel, 3), IntBit(channel, 2), IntBit(channel, 1),
     IntBit(channel, 0)]
  }

  function NextSeven(bs: seq<bool>): (u: seq<bool>)
    requires |bs| == 7
    ensures |u| == 7
  {
    [bs[6], bs[0], bs[1], bs[2], bs[3] != bs[6], bs[4], bs[5]]
  }

  /** The stages before bit `n`; the data never enters them. */
  function Stages(channel: int, n: nat): (r: seq<bool>)
    ensures |r| == 7
    decreases n
  {
    if n == 0 then Seed(channel) else NextSeven(Stages(channel, n - 1))
  }

  function Whitened(bits: seq<bool>, channel: int): (r: seq<bool>)
    ensures |r| == |bits|
  {
    seq(|bits|, i requires 0 <= i < |bits| => Stages(channel, i)[6] != bits[i])
  }

  method Whiten(bits: seq<bool>, channel: int) returns (out: seq<bool>)
    ensures out == Whitened(bits, channel)
  {
    hide NextSeven, Seed;
    var bs := new bool[7];
    Load(bs, Seed(channel));
    out := [];
    for i := 0 to |bits|
      invariant bs[..] == Stages(channel, i)
      invariant |out| == i && forall k :: 0 <= k < i ==> out[k] == (Stages(channel, k)[6] != bits[k])
    {
      out := out + [bs[6] != bits[i]];
      var u := NextSeven(bs[..]);
      Load(bs, u);
    }
  }

  /** memcpy into the stages. */
  method Load(bs: array<bool>, u: seq<bool>)
    requires bs.Length == |u|
    modifies bs
    ensures bs[..] == u
  {
    for i := 0 to |u|
      invariant bs[..i] == u[..i]
    {
      bs[i] := u[i];
      assert bs[..i + 1] == bs[..i] + [u[i]];
    }
  }

  /** Whitening twice on one channel changes nothing. */
  lemma WhitenTwice(bits: seq<bool>, channel: int)
    ensures Whitened(Whitened(bits, channel), channel) == bits
  {
    hide Stages;
    forall i | 0 <= i < |bits|
      ensures Whitened(Whitened(bits, channel), channel)[i] == bits[i]
    {
    }
  }

  /** What follows does not affect what came before. */
  lemma WhitenPrefix(a: seq<bool>, b: seq<bool>, channel: int)
    ensures Whitened(a + b, channel)[..|a|] == Whitened(a, channel)
  {
    hide Stages;
  }

  function Off(n: nat): (r: seq<bool>)
    ensures |r| == n
  {
    seq(n, _ => false)
  }

  lemma StageMoves(channel: int, n: nat)
    ensures var b, u := Stages(channel, n), Stages(channel, n + 1); u == [b[6], b[0], b[1], b[2], b[3] != b[6], b[4], b[5]]
  {
  }

  /** Every whitened bit is the bit or its opposite, as the keystream says, whatever the other bits are. */
  lemma WhitensByKey(bits: seq<bool>, channel: int, i: nat)
    requires i < |bits|
    ensures Whitened(bits, channel)[i] == (bits[i] != Whitened(Off(i + 1), channel)[i])
  {
    hide Stages;
  }

  /** The keystream's recurrence: every bit is the sum of those seven and three places in front of it. */
  lemma KeyRecurs(channel: int, n: nat)
    ensures var k := Whitened(Off(n + 8), channel); k[n + 7] == (k[n] != k[n + 4])
  {
    hide Stages;
    StageMoves(channel, n);
    StageMoves(channel, n + 1);
    StageMoves(channel, n + 2);
    StageMoves(channel, n + 3);
    StageMoves(channel, n + 4);
    StageMoves(channel, n + 5);
    StageMoves(channel, n + 6);
  }

  /** The channel's six bits and the stage that is always set give the first seven bits. */
  lemma KeyStarts(channel: int)
    ensures var k := Whitened(Off(7), channel); var c := channel;
            && k[0] == (c % 2 == 1) && k[1] == (c / 2 % 2 == 1) && k[2] == (c / 2 / 2 % 2 == 1)
            && k[3] == ((c / 2 / 2 / 2 % 2 == 1) != k[0]) && k[4] == ((c / 2 / 2 / 2 / 2 % 2 == 1) != k[1])
            && k[5] == ((c / 2 / 2 / 2 / 2 / 2 % 2 == 1) != k[2]) && k[6] == !k[3]
  {
    hide Stages, Shr;
    SeedIs(channel);
    StageMoves(channel, 0);
    StageMoves(channel, 1);
    StageMoves(channel, 2);
    StageMoves(channel, 3);
    StageMoves(channel, 4);
    StageMoves(channel, 5);
  }

  lemma SeedIs(c: int)
    ensures Stages(c, 0) == [true, c / 2 / 2 / 2 / 2 / 2 % 2 == 1, c / 2 / 2 / 2 / 2 % 2 == 1, c / 2 / 2 / 2 % 2 == 1,
                             c / 2 / 2 % 2 == 1, c / 2 % 2 == 1, c % 2 == 1]
  {
    assert Shr(c, 0) == c && Shr(c, 1) == Shr(c, 0) / 2 && Shr(c, 2) == Shr(c, 1) / 2;
    assert Shr(c, 3) == Shr(c, 2) / 2 && Shr(c, 4) == Shr(c, 3) / 2 && Shr(c, 5) == Shr(c, 4) / 2;
  }

  // ----- the packet

  const PREAMBLE := "AA"
  const ACCESS_ADDRESS := "D6BE898E"
  const CRC_INIT := Word(0x555555)
  const PDU_START: nat := 40

  /** Six octets of address, and no or at most 31 octets of data. */
  predicate Sendable(p: AdvPacket) {
    |Clean(p.mac)| == 12 && (p.advData == "" || Usable(Clean(p.advData), 31))
  }

  function Mac(p: AdvPacket): (r: seq<byte>)
    ensures Sendable(p) ==> |r| == 6
  {
    HexOctets(Clean(p.mac))
  }

  function AdvData(p: AdvPacket): (r: seq<byte>)
    ensures Sendable(p) ==> |r| <= 31
  {
    HexOctets(Clean(p.advData))
  }

  function Header(p: AdvPacket): seq<bool> {
    HeaderBits(p.pduType, p.txadd, p.rxadd, 6 + |AdvData(p)|)
  }

  function PduBits(p: AdvPacket): seq<bool> {
    Header(p) + AllLsbBits(Flipped(Mac(p))) + AllLsbBits(AdvData(p))
  }

  function Lead(): (r: seq<bool>) { HexBits(PREAMBLE, false, 1) + HexBits(ACCESS_ADDRESS, false, 4) }

  function InfoBits(p: AdvPacket): seq<bool> {
    if Sendable(p) then Lead() + PduBits(p) else []
  }

  function CrcBits(pdu: seq<bool>): (r: seq<bool>)
    ensures |r| == 24
  {
    Reversed(Serial(PresetStages(CRC_INIT), pdu))
  }

  function PhyBits(p: AdvPacket): seq<bool> {
    if Sendable(p) then Lead() + Whitened(PduBits(p) + CrcBits(PduBits(p)), p.channel) else []
  }

  lemma {:induction false} CleanText(s: string)
    requires AllHex(s)
    ensures Clean(s) == s
  {
    if s != [] {
      CleanText(s[..|s| - 1]);
      assert s == s[..|s| - 1] + [s[|s| - 1]];
    }
  }

  lemma LeadOctets()
    ensures HexOctet('D', '6') == 0xD6 && HexOctet('B', 'E') == 0xBE && HexOctet('8', '9') == 0x89 && HexOctet('8', 'E') == 0x8E
    ensures AllHex(PREAMBLE) && AllHex(ACCESS_ADDRESS)
  {
  }

  lemma LeadIsFixed()
    ensures |HexBits(PREAMBLE, false, 1)| == 8 && |HexBits(ACCESS_ADDRESS, false, 4)| == 32
    ensures HexBits(ACCESS_ADDRESS, false, 4) == AllLsbBits([0xD6, 0xBE, 0x89, 0x8E])
  {
    hide HexOctet, Clean, AllLsbBits;
    LeadOctets();
    CleanText(PREAMBLE);
    CleanText(ACCESS_ADDRESS);
    assert HexOctets(ACCESS_ADDRESS) == [HexOctet('D', '6'), HexOctet('B', 'E'), HexOctet('8', '9'), HexOctet('8', 'E')];
  }

  /** What every packet begins with: the alternating preamble and the advertising access address. */
  lemma LeadIsSent()
    ensures Lead() == AllLsbBits([0xAA]) + AllLsbBits([0xD6, 0xBE, 0x89, 0x8E])
  {
    hide HexOctet, Clean, AllLsbBits;
    LeadIsFixed();
    CleanText(PREAMBLE);
    PreambleOctet();
    assert HexOctets(PREAMBLE) == [HexOctet('A', 'A')];
  }

  lemma PreambleOctet()
    ensures AllHex(PREAMBLE) && HexOctet('A', 'A') == 0xAA
  {
  }

  /** A packet is sent exactly when its address has twelve hex digits and its data none at all or from one to 31 pairs of
      them, whatever other characters stand between. */
  lemma SentIff(p: AdvPacket)
    ensures var mac, data := |Clean(p.mac)|, |Clean(p.advData)|;
            (PhyBits(p) != [] <==> mac == 12 && (p.advData == "" || (data % 2 == 0 && 2 <= data <= 62)))
            && (InfoBits(p) == [] <==> PhyBits(p) == [])
  {
    hide HexBits, Whitened, CrcBits, PduBits, Clean;
    LeadIsFixed();
  }

  predicate HexDigitChar(c: char) { '0' <= c <= '9' || 'a' <= c <= 'f' || 'A' <= c <= 'F' }

  /** The digits kept are the hex digits, in their order. */
  lemma {:induction false} CleanKeepsDigits(s: string, c: char)
    ensures HexDigitChar(c) ==> Clean(s + [c]) == Clean(s) + [c]
    ensures !HexDigitChar(c) ==> Clean(s + [c]) == Clean(s)
    ensures Clean("") == ""
  {
    hide HexNibble;
    DigitsAre(c);
    assert (s + [c])[..|s|] == s;
  }

  lemma DigitsAre(c: char)
    ensures IsHex(c) <==> HexDigitChar(c)
  {
  }

  // ----- the check sequence without its preset

  /** Every second of the first 24 bits turned. */
  function SecondsTurned(bits: seq<bool>): (r: seq<bool>)
    ensures |r| == |bits|
  {
    seq(|bits|, i requires 0 <= i < |bits| => if i < 24 && i % 2 == 1 then !bits[i] else bits[i])
  }

  lemma PresetAlternates(k: nat)
    requires k < 24
    ensures PresetStages(CRC_INIT)[k] == (k % 2 == 0)
  {
    hide Mask;
    MaskValues();
    var j := 16 - 8 * (k / 8) + k % 8;
    if j < 8 {
      if j == 0 {} else if j == 1 {} else if j == 2 {} else if j == 3 {} else if j == 4 {} else if j == 5 {} else if j == 6 {} else {}
    } else if j < 16 {
      if j == 8 {} else if j == 9 {} else if j == 10 {} else if j == 11 {} else if j == 12 {} else if j == 13 {} else if j == 14 {} else {}
    } else {
      if j == 16 {} else if j == 17 {} else if j == 18 {} else if j == 19 {} else if j == 20 {} else if j == 21 {} else if j == 22 {} else {}
    }
  }

  /** The check sequence is the plain division of the PDU with every second of its first 24 bits turned, read out from the
      last stage on. */
  lemma CrcIsPlainDivision(pdu: seq<bool>)
    requires |pdu| >= 24
    ensures CrcBits(pdu) == Reversed(Serial(NoStages(), SecondsTurned(pdu)))
  {
    hide Serial, PresetStages;
    var stages := PresetStages(CRC_INIT);
    PresetIsData(stages, pdu);
    forall k: nat | k < 24
      ensures stages[k] == (k % 2 == 0)
    {
      PresetAlternates(k);
    }
    assert Different(pdu[..24], ReadOut(stages, 24)) + pdu[24..] == SecondsTurned(pdu);
  }

  lemma Appending<T>(a: seq<T>, b: seq<T>, c: seq<T>, d: seq<T>)
    ensures a + b + c + d == a + (b + c + d)
  {
  }

  method BuildInfoBits(p: AdvPacket) returns (info: seq<bool>)
    ensures info == InfoBits(p)
  {
    hide Clean, HexOctets, Flipped, HeaderBits, AllLsbBits, AllHex;
    LeadIsFixed();
    NoDigits();
    var preamble := HexToBits(PREAMBLE, false, 1);
    var aa := HexToBits(ACCESS_ADDRESS, false, 4);
    var mac := HexToBits(p.mac, true, 6);
    var adv := [];
    if p.advData != "" {
      adv := HexToBits(p.advData, false, 31);
    }
    if |preamble| != 8 || |aa| != 32 || |mac| != 48 {
      return [];
    }
    if p.advData != "" && adv == [] {
      return [];
    }
    var len := (|mac| + |adv|) / 8;
    assert adv == AllLsbBits(AdvData(p));
    assert |adv| == 8 * |AdvData(p)|;
    var header := HeaderBits(p.pduType, p.txadd, p.rxadd, len);
    info := preamble + aa;
    info := info + header;
    info := info + mac;
    info := info + adv;
    Appending(preamble + aa, header, mac, adv);
  }

  lemma NoDigits()
    ensures Clean("") == "" && HexOctets("") == [] && AllLsbBits([]) == []
  {
  }

  method BuildPhyBits(p: AdvPacket) returns (phy: seq<bool>)
    ensures phy == PhyBits(p)
  {
    hide Whitened, CrcBits, PduBits, Clean, HexBits, PresetStages, Serial;
    var info := BuildInfoBits(p);
    if info == [] {
      assert !Sendable(p) by {
        LeadIsFixed();
      }
      return [];
    }
    LeadIsFixed();
    assert info[..PDU_START] == Lead() && info[PDU_START..] == PduBits(p);
    var pdu := info[PDU_START..];
    var crc := SerialCrc(pdu, CRC_INIT);
    CrcBitsAre(pdu);
    var whitened := Whiten(pdu + crc, p.channel);
    phy := info[..PDU_START];
    phy := phy + whitened;
  }

  lemma CrcBitsAre(pdu: seq<bool>)
    ensures CrcBits(pdu) == Reversed(Serial(PresetStages(CRC_INIT), pdu))
  {
  }
}
