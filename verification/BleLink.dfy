/** The BLE receiver undoes the BLE transmitter. */
module BleLink {
  import opened Bits
  import opened BleCrc
  import opened BleTx
  import opened BleRx

  // ----- packing octets is the inverse of sending them least significant bit first

  lemma OctetUnrolled(bits: seq<bool>, from: nat)
    requires from + 8 <= |bits|
    ensures OctetAt(bits, from, 8) ==
            Set(Set(Set(Set(Set(Set(Set(Set(0, 0, bits[from]), 1, bits[from + 1]), 2, bits[from + 2]), 3, bits[from + 3]),
                4, bits[from + 4]), 5, bits[from + 5]), 6, bits[from + 6]), 7, bits[from + 7])
  {
    hide Set;
    assert OctetAt(bits, from, 0) == 0;
    assert OctetAt(bits, from, 2) == Set(Set(0, 0, bits[from]), 1, bits[from + 1]);
    assert OctetAt(bits, from, 4) == Set(Set(OctetAt(bits, from, 2), 2, bits[from + 2]), 3, bits[from + 3]);
    assert OctetAt(bits, from, 6) == Set(Set(OctetAt(bits, from, 4), 4, bits[from + 4]), 5, bits[from + 5]);
  }

  lemma SetBits(a: bool, b: bool, c: bool, d: bool, e: bool, f: bool, g: bool, h: bool)
    ensures LsbBits(Set(Set(Set(Set(Set(Set(Set(Set(0, 0, a), 1, b), 2, c), 3, d), 4, e), 5, f), 6, g), 7, h)) ==
            [a, b, c, d, e, f, g, h]
  {
  }

  lemma BitsOfOctetAt(bits: seq<bool>, from: nat)
    requires from + 8 <= |bits|
    ensures LsbBits(OctetAt(bits, from, 8)) == bits[from..from + 8]
  {
    hide LsbBits, Set, OctetAt;
    OctetUnrolled(bits, from);
    SetBits(bits[from], bits[from + 1], bits[from + 2], bits[from + 3], bits[from + 4], bits[from + 5], bits[from + 6],
            bits[from + 7]);
  }

  lemma SameOctet(a: byte, b: byte)
    requires LsbBits(a) == LsbBits(b)
    ensures a == b
  {
    assert LsbBits(a)[0] == LsbBits(b)[0] && LsbBits(a)[1] == LsbBits(b)[1] && LsbBits(a)[2] == LsbBits(b)[2];
    assert LsbBits(a)[3] == LsbBits(b)[3] && LsbBits(a)[4] == LsbBits(b)[4] && LsbBits(a)[5] == LsbBits(b)[5];
    assert LsbBits(a)[6] == LsbBits(b)[6] && LsbBits(a)[7] == LsbBits(b)[7];
  }

  lemma {:induction false} OctetSlice(octets: seq<byte>, i: nat, from: nat)
    requires i < |octets| && from == 8 * i
    ensures AllLsbBits(octets)[from..from + 8] == LsbBits(octets[i])
  {
    hide LsbBits;
    var n := |octets| - 1;
    var front, last := AllLsbBits(octets[..n]), LsbBits(octets[n]);
    if i < n {
      OctetSlice(octets[..n], i, from);
      SliceOfFront(front, last, from, from + 8);
    } else {
      SliceOfBack(front, last);
    }
  }

  lemma SliceOfFront<T>(a: seq<T>, b: seq<T>, from: nat, to: nat)
    requires from <= to <= |a|
    ensures (a + b)[from..to] == a[from..to]
  {
  }

  lemma SliceOfBack<T>(a: seq<T>, b: seq<T>)
    ensures (a + b)[|a|..|a| + |b|] == b
  {
  }

  /** Octets sent least significant bit first, with anything behind them, are packed back. */
  lemma PackInvertsSend(octets: seq<byte>, bits: seq<bool>)
    requires AllLsbBits(octets) <= bits
    ensures |octets| <= |Packed(bits)| && Packed(bits)[..|octets|] == octets
  {
    hide AllLsbBits, LsbBits, OctetAt;
    forall i | 0 <= i < |octets|
      ensures Packed(bits)[i] == octets[i]
    {
      OctetSlice(octets, i, 8 * i);
      assert bits[8 * i..8 * i + 8] == AllLsbBits(octets)[8 * i..8 * i + 8];
      BitsOfOctetAt(bits, 8 * i);
      SameOctet(OctetAt(bits, 8 * i, 8), octets[i]);
    }
  }

  lemma {:induction false} SendAppend(a: seq<byte>, b: seq<byte>)
    ensures AllLsbBits(a + b) == AllLsbBits(a) + AllLsbBits(b)
    decreases |b|
  {
    hide LsbBits;
    if b == [] {
      assert a + b == a;
    } else {
      var n := |b| - 1;
      assert (a + b)[..|a| + n] == a + b[..n];
      SendAppend(a, b[..n]);
    }
  }

  // ----- the header

  function TypeValue(t: PduType): byte {
    match t
    case ADV_IND => 0
    case ADV_DIRECT_IND => 1
    case ADV_NONCONN_IND => 2
    case SCAN_REQ => 3
    case SCAN_RSP => 4
    case CONNECT_REQ => 5
    case ADV_SCAN_IND => 6
  }

  function HeaderOctets(t: PduType, txadd: int, rxadd: int, len: int): (r: seq<byte>)
    ensures |r| == 2
  {
    var h := HeaderBits(t, txadd, rxadd, len);
    [OctetAt(h, 0, 8), OctetAt(h, 8, 8)]
  }

  lemma HeaderIsOctets(t: PduType, txadd: int, rxadd: int, len: int)
    ensures HeaderBits(t, txadd, rxadd, len) == AllLsbBits(HeaderOctets(t, txadd, rxadd, len))
  {
    hide LsbBits, OctetAt, HeaderBits, AllLsbBits;
    var h := HeaderBits(t, txadd, rxadd, len);
    var octets := HeaderOctets(t, txadd, rxadd, len);
    BitsOfOctetAt(h, 0);
    BitsOfOctetAt(h, 8);
    OctetSlice(octets, 0, 0);
    OctetSlice(octets, 1, 8);
    SameHalves(h, AllLsbBits(octets));
  }

  lemma SameHalves<T>(s: seq<T>, t: seq<T>)
    requires |s| == 16 && |t| == 16 && s[0..8] == t[0..8] && s[8..16] == t[8..16]
    ensures s == t
  {
    assert s == s[0..8] + s[8..16] && t == t[0..8] + t[8..16];
  }

  lemma SameThirds<T>(s: seq<T>, t: seq<T>)
    requires |s| == 24 && |t| == 24 && s[0..8] == t[0..8] && s[8..16] == t[8..16] && s[16..24] == t[16..24]
    ensures s == t
  {
    assert s == s[0..8] + s[8..16] + s[16..24] && t == t[0..8] + t[8..16] + t[16..24];
  }

  lemma TypeBack(t: PduType, tx: bool, rx: bool)
    ensures var b := TypeBits(t);
            TypeOf(Set(Set(Set(Set(Set(Set(Set(Set(0, 0, b[0]), 1, b[1]), 2, b[2]), 3, b[3]), 4, false), 5, false), 6, tx), 7, rx))
            == TypeValue(t)
  {
  }

  function LengthOctet(len: int): byte {
    Set(Set(Set(Set(Set(Set(Set(Set(0, 0, IntBit(len, 0)), 1, IntBit(len, 1)), 2, IntBit(len, 2)), 3, IntBit(len, 3)),
        4, IntBit(len, 4)), 5, IntBit(len, 5)), 6, false), 7, false)
  }

  lemma HeaderBack(t: PduType, txadd: int, rxadd: int, len: int)
    ensures TypeOf(HeaderOctets(t, txadd, rxadd, len)[0]) == TypeValue(t)
    ensures HeaderOctets(t, txadd, rxadd, len)[1] == LengthOctet(len)
  {
    hide TypeBits, IntBit, Set, OctetAt, TypeOf;
    var h := HeaderBits(t, txadd, rxadd, len);
    OctetUnrolled(h, 0);
    OctetUnrolled(h, 8);
    TypeBack(t, IntBit(txadd, 0), t.SCAN_RSP? || IntBit(rxadd, 0));
  }

  /** The first octet on the air: the type, no reserved bit, and the two address kinds; a scan response always has the
      second one set. */
  lemma FirstOctet(t: PduType, txadd: int, rxadd: int, len: int)
    ensures HeaderOctets(t, txadd, rxadd, len)[0] ==
            TypeValue(t) | (if txadd % 2 == 1 then 0x40 else 0) | (if t == SCAN_RSP || rxadd % 2 == 1 then 0x80 else 0)
  {
    hide TypeBits, Set, OctetAt;
    var h := HeaderBits(t, txadd, rxadd, len);
    OctetUnrolled(h, 0);
    OddIsLowest(txadd);
    OddIsLowest(rxadd);
    FirstOctetIs(t, IntBit(txadd, 0), t.SCAN_RSP? || IntBit(rxadd, 0));
  }

  lemma OddIsLowest(n: int)
    ensures IntBit(n, 0) == (n % 2 == 1)
  {
  }

  lemma FirstOctetIs(t: PduType, tx: bool, rx: bool)
    ensures var b := TypeBits(t);
            Set(Set(Set(Set(Set(Set(Set(Set(0, 0, b[0]), 1, b[1]), 2, b[2]), 3, b[3]), 4, false), 5, false), 6, tx), 7, rx)
            == TypeValue(t) | (if tx then 0x40 else 0) | (if rx then 0x80 else 0)
  {
  }

  lemma LengthBack(len: nat)
    requires len <= 37
    ensures LengthOf(LengthOctet(len)) == len
  {
    var b := [IntBit(len, 0), IntBit(len, 1), IntBit(len, 2), IntBit(len, 3), IntBit(len, 4), IntBit(len, 5)];
    BinaryDigits(len);
    LengthValue(b[0], b[1], b[2], b[3], b[4], b[5]);
  }

  lemma BinaryDigits(n: nat)
    requires n < 64
    ensures n == One(IntBit(n, 0)) + 2 * One(IntBit(n, 1)) + 4 * One(IntBit(n, 2)) + 8 * One(IntBit(n, 3)) +
                 16 * One(IntBit(n, 4)) + 32 * One(IntBit(n, 5))
  {
    hide Shr, IntBit, One;
    Halved(n, 0);
    Halved(n, 1);
    Halved(n, 2);
    Halved(n, 3);
    Halved(n, 4);
    Halved(n, 5);
    ShiftedAway(n);
  }

  lemma Halved(n: nat, k: nat)
    ensures Shr(n, k) == One(IntBit(n, k)) + 2 * Shr(n, k + 1)
  {
  }

  lemma ShiftedAway(n: nat)
    requires n < 64
    ensures Shr(n, 0) == n && Shr(n, 6) == 0
  {
    assert 0 <= Shr(n, 2) < 16;
    assert 0 <= Shr(n, 4) < 4;
  }

  function One(b: bool): nat { if b then 1 else 0 }

  lemma LengthValue(a: bool, b: bool, c: bool, d: bool, e: bool, f: bool)
    ensures LengthOf(Set(Set(Set(Set(Set(Set(Set(Set(0, 0, a), 1, b), 2, c), 3, d), 4, e), 5, f), 6, false), 7, false)) ==
            One(a) + 2 * One(b) + 4 * One(c) + 8 * One(d) + 16 * One(e) + 32 * One(f)
  {
  }

  // ----- the check sequence

  function LowOctetOf(w: Word): byte { (w.v & 0xFF) as byte }
  function MidOctetOf(w: Word): byte { ((w.v >> 8) & 0xFF) as byte }
  function HighOctetOf(w: Word): byte { ((w.v >> 16) & 0xFF) as byte }

  function WordOctets(w: Word): (r: seq<byte>)
    ensures |r| == 3
  {
    [LowOctetOf(w), MidOctetOf(w), HighOctetOf(w)]
  }

  lemma AssembledBack(w: Word)
    ensures Assembled(LowOctetOf(w), MidOctetOf(w), HighOctetOf(w)) == w
  {
  }

  function HalfTimes(w: Word, k: nat): Word
    decreases k
  {
    if k == 0 then w else Half(HalfTimes(w, k - 1))
  }

  lemma {:induction false} BitByHalving(w: Word, i: nat, k: nat)
    ensures BitAt(HalfTimes(w, k), i) == BitAt(w, i + k)
    decreases k
  {
    hide Half, BitAt;
    if k > 0 {
      HalfBit(HalfTimes(w, k - 1), i);
      BitByHalving(w, i + 1, k - 1);
    }
  }

  lemma EightHalves(w: Word)
    ensures Half(Half(Half(Half(Half(Half(Half(Half(w)))))))) == Down(w)
  {
  }

  lemma OctetsByDown(w: Word)
    ensures MidOctetOf(w) == LowOctetOf(Down(w)) && HighOctetOf(w) == LowOctetOf(Down(Down(w)))
  {
  }

  function LowBits(w: Word): (r: seq<bool>)
    ensures |r| == 8
  {
    LsbBits(LowOctetOf(w))
  }

  lemma LowBitsByHalving(w: Word)
    ensures LowBits(w) ==
            [Odd(w), Odd(Half(w)), Odd(Half(Half(w))), Odd(Half(Half(Half(w)))), Odd(Half(Half(Half(Half(w))))),
             Odd(Half(Half(Half(Half(Half(w)))))), Odd(Half(Half(Half(Half(Half(Half(w))))))),
             Odd(Half(Half(Half(Half(Half(Half(Half(w))))))))]
  {
  }

  lemma LowBitIsOdd(w: Word, k: nat)
    requires k < 8
    ensures LowBits(w)[k] == Odd(HalfTimes(w, k))
  {
    hide Odd, Half, LowBits, HalfTimes;
    LowBitsByHalving(w);
    HalvesUnrolled(w);
    if k == 0 {
    } else if k == 1 {
    } else if k == 2 {
    } else if k == 3 {
    } else if k == 4 {
    } else if k == 5 {
    } else if k == 6 {
    } else if k == 7 {
    }
  }

  lemma OddIsBit(w: Word)
    ensures Odd(w) == BitAt(w, 0)
  {
  }

  lemma HalvesUnrolled(w: Word)
    ensures HalfTimes(w, 0) == w && HalfTimes(w, 1) == Half(w) && HalfTimes(w, 2) == Half(Half(w))
    ensures HalfTimes(w, 3) == Half(Half(Half(w))) && HalfTimes(w, 4) == Half(Half(Half(Half(w))))
    ensures HalfTimes(w, 5) == Half(Half(Half(Half(Half(w)))))
    ensures HalfTimes(w, 6) == Half(Half(Half(Half(Half(Half(w))))))
    ensures HalfTimes(w, 7) == Half(Half(Half(Half(Half(Half(Half(w)))))))
    ensures HalfTimes(w, 8) == Half(Half(Half(Half(Half(Half(Half(Half(w))))))))
  {
    hide Half;
  }

  lemma LowOctetBit(w: Word, k: nat)
    requires k < 8
    ensures LowBits(w)[k] == BitAt(w, k)
  {
    hide *;
    LowBitIsOdd(w, k);
    OddIsBit(HalfTimes(w, k));
    BitByHalving(w, 0, k);
  }

  lemma BitBelow(w: Word, k: nat)
    ensures BitAt(Down(w), k) == BitAt(w, 8 + k)
  {
    hide *;
    HalvesUnrolled(w);
    EightHalves(w);
    BitByHalving(w, k, 8);
  }

  lemma OctetBits(w: Word, k: nat)
    requires k < 8
    ensures LsbBits(LowOctetOf(w))[k] == BitAt(w, k)
    ensures LsbBits(MidOctetOf(w))[k] == BitAt(w, 8 + k)
    ensures LsbBits(HighOctetOf(w))[k] == BitAt(w, 16 + k)
  {
    hide HalfTimes, Half, LsbBits, BitAt, LowOctetOf, MidOctetOf, HighOctetOf, Down;
    OctetsByDown(w);
    LowOctetBit(w, k);
    LowOctetBit(Down(w), k);
    LowOctetBit(Down(Down(w)), k);
    BitBelow(w, k);
    BitBelow(Down(w), k);
    BitBelow(w, 8 + k);
  }

  lemma WordBitsSplit(w: Word)
    ensures WordBits(w)[0..8] == LsbBits(LowOctetOf(w))
    ensures WordBits(w)[8..16] == LsbBits(MidOctetOf(w))
    ensures WordBits(w)[16..24] == LsbBits(HighOctetOf(w))
  {
    hide LsbBits, BitAt, LowOctetOf, MidOctetOf, HighOctetOf;
    forall k | 0 <= k < 8
      ensures WordBits(w)[0..8][k] == LsbBits(LowOctetOf(w))[k]
      ensures WordBits(w)[8..16][k] == LsbBits(MidOctetOf(w))[k]
      ensures WordBits(w)[16..24][k] == LsbBits(HighOctetOf(w))[k]
    {
      OctetBits(w, k);
    }
  }

  lemma WordBitsAreOctets(w: Word)
    ensures WordBits(w) == AllLsbBits(WordOctets(w))
  {
    hide LsbBits, WordBits, AllLsbBits, LowOctetOf, MidOctetOf, HighOctetOf;
    WordBitsSplit(w);
    OctetSlice(WordOctets(w), 0, 0);
    OctetSlice(WordOctets(w), 1, 8);
    OctetSlice(WordOctets(w), 2, 16);
    SameThirds(WordBits(w), AllLsbBits(WordOctets(w)));
  }

  // ----- end to end

  function PduOctets(p: AdvPacket): seq<byte> {
    HeaderOctets(p.pduType, p.txadd, p.rxadd, 6 + |AdvData(p)|) + Flipped(Mac(p)) + AdvData(p)
  }

  lemma PduIsOctets(p: AdvPacket)
    ensures PduBits(p) == AllLsbBits(PduOctets(p))
  {
    hide AllLsbBits, HeaderBits, HeaderOctets, Mac, AdvData, Flipped;
    var h := HeaderOctets(p.pduType, p.txadd, p.rxadd, 6 + |AdvData(p)|);
    HeaderIsOctets(p.pduType, p.txadd, p.rxadd, 6 + |AdvData(p)|);
    SendAppend(h, Flipped(Mac(p)));
    SendAppend(h + Flipped(Mac(p)), AdvData(p));
  }

  /** What the receiver is to report. */
  function Expected(p: AdvPacket): Packet {
    Packet(TypeValue(p.pduType), 6 + |AdvData(p)|, Mac(p), AdvData(p), SentCrc(p), SentCrc(p), p.channel)
  }

  /** The check sequence of a packet, as the receiver computes it. */
  function SentCrc(p: AdvPacket): Word { TableRun(Preset(), PduOctets(p)) }

  /** On octets: a PDU followed by its check sequence and anything else is accepted as sent. */
  lemma ParsedBack(p: AdvPacket, bytes: seq<byte>)
    requires Sendable(p) && PduOctets(p) + WordOctets(SentCrc(p)) <= bytes
    ensures Parsed(bytes, p.channel) == Accepted(Expected(p))
  {
    hide TypeOf, LengthOf, Sendable, Mac, AdvData, HeaderOctets, TableRun, LowOctetOf, MidOctetOf, HighOctetOf, Assembled,
         TypeValue, LengthOctet, Preset;
    var n := |AdvData(p)|;
    var h, mac := HeaderOctets(p.pduType, p.txadd, p.rxadd, 6 + n), Flipped(Mac(p));
    HeaderBack(p.pduType, p.txadd, p.rxadd, 6 + n);
    LengthBack(6 + n);
    TypeIsAllowed(p.pduType);
    var crc := SentCrc(p);
    AssembledBack(crc);
    Layout(h, mac, AdvData(p), WordOctets(crc), bytes, 8 + n);
    assert Flipped(mac) == Mac(p);
  }

  lemma TypeIsAllowed(t: PduType)
    ensures TypeValue(t) < 7
  {
  }

  lemma Layout<T>(h: seq<T>, mac: seq<T>, data: seq<T>, crc: seq<T>, bytes: seq<T>, body: nat)
    requires |h| == 2 && |mac| == 6 && body == 8 + |data| && |crc| == 3 && h + mac + data + crc <= bytes
    ensures body + 3 <= |bytes|
    ensures bytes[0] == h[0] && bytes[1] == h[1] && bytes[2..8] == mac && bytes[8..body] == data
    ensures bytes[..body] == h + mac + data
    ensures bytes[body] == crc[0] && bytes[body + 1] == crc[1] && bytes[body + 2] == crc[2]
  {
    var w := h + mac + data + crc;
    assert forall i {:trigger w[i]} :: 0 <= i < |w| ==> bytes[i] == w[i];
    assert w[2..8] == mac && w[8..body] == data && w[..body] == h + mac + data;
    assert w[body] == crc[0] && w[body + 1] == crc[1] && w[body + 2] == crc[2];
    assert bytes[2..8] == w[2..8] && bytes[8..body] == w[8..body] && bytes[..body] == w[..body];
  }

  /** The bits of a built packet behind its access address, with anything behind them, parse to the
      packet that was entered: same type, length, address in display order and data. */
  lemma ParserInvertsBuilder(p: AdvPacket, tail: seq<bool>)
    requires Sendable(p)
    ensures |PhyBits(p)| >= PDU_START
    ensures Received(PhyBits(p)[PDU_START..] + tail, p.channel) == Accepted(Expected(p))
  {
    hide Whitened, PduBits, CrcBits, Lead, Parsed, Packed, AllLsbBits, SentCrc, Expected, WordOctets,
         PduOctets, Sendable;
    SentSize(p);
    var sent, octets := PduBits(p) + CrcBits(PduBits(p)), PduOctets(p) + WordOctets(SentCrc(p));
    SentIsOctets(p);
    var raw := PhyBits(p)[PDU_START..] + tail;
    assert PhyBits(p)[PDU_START..] == Whitened(sent, p.channel);
    HeardStart(Whitened(sent, p.channel), tail);
    var heard := Heard(raw);
    var rest := heard[|sent|..];
    assert heard == Whitened(sent, p.channel) + rest;
    WhitenPrefix(Whitened(sent, p.channel), rest, p.channel);
    WhitenTwice(sent, p.channel);
    PackInvertsSend(octets, Whitened(heard, p.channel));
    ParsedBack(p, Packed(Whitened(heard, p.channel)));
  }

  lemma HeardStart(a: seq<bool>, tail: seq<bool>)
    requires |a| <= MAX_BITS
    ensures |Heard(a + tail)| >= |a| && Heard(a + tail)[..|a|] == a
  {
  }

  lemma SentSize(p: AdvPacket)
    requires Sendable(p)
    ensures |Lead()| == PDU_START && 40 <= |PduBits(p)| + 24 <= MAX_BITS
    ensures PhyBits(p) == Lead() + Whitened(PduBits(p) + CrcBits(PduBits(p)), p.channel)
  {
    hide HexBits, Whitened, CrcBits;
    LeadIsFixed();
    PduIsOctets(p);
  }

  lemma SentIsOctets(p: AdvPacket)
    ensures PduBits(p) + CrcBits(PduBits(p)) == AllLsbBits(PduOctets(p) + WordOctets(SentCrc(p)))
  {
    hide Shows, PresetStages, AllLsbBits, TableRun, Reordered, WordOctets, PduOctets, PduBits, Serial, Reversed, WordBits;
    var octets := PduOctets(p);
    PduIsOctets(p);
    ReorderedShows(CRC_INIT);
    BothEndsAgree(Preset(), PresetStages(CRC_INIT), octets);
    WordBitsAreOctets(SentCrc(p));
    SendAppend(octets, WordOctets(SentCrc(p)));
  }

  // ----- exactly what the receiver accepts

  /** A PDU on octets: an advertising type, and an address and up to 31 octets of data as the length octet says. */
  predicate ValidPdu(o: seq<byte>) { 8 <= |o| <= 39 && o[0] & 0x0F < 7 && (o[1] & 0x3F) as nat == |o| - 2 }

  /** Packed octets are the ones whose bits those were. */
  lemma {:induction false} SendInvertsPack(bits: seq<bool>, n: nat)
    requires 8 * n <= |bits|
    ensures n <= |Packed(bits)| && AllLsbBits(Packed(bits)[..n]) == bits[..8 * n]
    decreases n
  {
    hide AllLsbBits, LsbBits, OctetAt;
    if n == 0 {
      NothingSent();
      assert Packed(bits)[..0] == [];
    } else {
      SendInvertsPack(bits, n - 1);
      var octets := Packed(bits)[..n];
      assert octets[..n - 1] == Packed(bits)[..n - 1];
      LastSent(octets);
      BitsOfOctetAt(bits, 8 * (n - 1));
      assert bits[..8 * n] == bits[..8 * (n - 1)] + bits[8 * (n - 1)..8 * n];
    }
  }

  lemma NothingSent()
    ensures AllLsbBits([]) == []
  {
  }

  lemma LastSent(octets: seq<byte>)
    requires octets != []
    ensures AllLsbBits(octets) == AllLsbBits(octets[..|octets| - 1]) + LsbBits(octets[|octets| - 1])
  {
  }

  /** The sender's check bits are those of the word that the receiver computes. */
  lemma CheckBits(o: seq<byte>)
    ensures CrcBits(AllLsbBits(o)) == AllLsbBits(WordOctets(TableRun(Preset(), o)))
  {
    hide Shows, PresetStages, AllLsbBits, TableRun, Reordered, WordOctets, Serial, Reversed, WordBits;
    ReorderedShows(CRC_INIT);
    BothEndsAgree(Preset(), PresetStages(CRC_INIT), o);
    WordBitsAreOctets(TableRun(Preset(), o));
  }

  lemma AssembledOctets(a: byte, b: byte, c: byte)
    ensures WordOctets(Assembled(a, b, c)) == [a, b, c]
  {
    OctetsOfAssembled(a, b, c);
  }

  lemma OctetsOfAssembled(a: byte, b: byte, c: byte)
    ensures LowOctetOf(Assembled(a, b, c)) == a && MidOctetOf(Assembled(a, b, c)) == b && HighOctetOf(Assembled(a, b, c)) == c
  {
  }

  /** Some valid PDU and its check bits, as a transmitter makes them, stand at the beginning. */
  ghost predicate HoldsPdu(bits: seq<bool>, o: seq<byte>) {
    ValidPdu(o) && AllLsbBits(o) + CrcBits(AllLsbBits(o)) <= bits
  }

  /** What is collected is enough for any PDU. */
  lemma HeardFront(raw: seq<bool>, channel: int)
    ensures Whitened(Heard(raw), channel) <= Whitened(raw, channel)
    ensures |Heard(raw)| == if |raw| <= 336 then |raw| else 336
  {
    hide Whitened;
    var heard := Heard(raw);
    assert raw == heard + raw[|heard|..];
    WhitenPrefix(heard, raw[|heard|..], channel);
    assert Whitened(raw, channel)[..|heard|] == Whitened(heard, channel);
  }

  /** On octets: a valid PDU in front of its check octets is accepted. */
  lemma ValidIsParsed(bytes: seq<byte>, channel: int, o: seq<byte>, crc: Word)
    requires ValidPdu(o) && crc == TableRun(Preset(), o) && o + WordOctets(crc) <= bytes
    ensures Parsed(bytes, channel) ==
            Accepted(Packet(o[0] & 0x0F, |o| - 2, Flipped(o[2..8]), o[8..], crc, crc, channel))
  {
    hide TableRun, LowOctetOf, MidOctetOf, HighOctetOf, Assembled, Preset;
    FrontOf(bytes, o, WordOctets(crc));
    AssembledBack(crc);
  }

  /** The bits heard begin with the octets of the PDU and its check word. */
  lemma PduIsHeard(raw: seq<bool>, channel: int, o: seq<byte>)
    requires HoldsPdu(Whitened(raw, channel), o)
    ensures var all := o + WordOctets(TableRun(Preset(), o));
            |all| <= |Packed(Whitened(Heard(raw), channel))| && all <= Packed(Whitened(Heard(raw), channel))
    ensures 88 <= |Heard(raw)|
  {
    hide Whitened, AllLsbBits, Packed, Heard, TableRun, WordOctets, Preset, CrcBits;
    var crc := TableRun(Preset(), o);
    CheckBits(o);
    SendAppend(o, WordOctets(crc));
    HeardFront(raw, channel);
    var all, bits := o + WordOctets(crc), Whitened(Heard(raw), channel);
    PrefixOfPrefix(AllLsbBits(all), bits, Whitened(raw, channel));
    PackInvertsSend(all, bits);
  }

  lemma PrefixOfPrefix<T>(a: seq<T>, b: seq<T>, c: seq<T>)
    requires a <= c && b <= c && |a| <= |b|
    ensures a <= b
  {
  }

  /** The parser accepts a valid PDU with the transmitter's check bits, and says what it holds. */
  lemma ValidIsAccepted(raw: seq<bool>, channel: int, o: seq<byte>)
    requires HoldsPdu(Whitened(raw, channel), o)
    ensures Received(raw, channel).Accepted?
    ensures var q := Received(raw, channel).packet;
            q.ptype == o[0] & 0x0F && q.payloadLen == |o| - 2 && q.mac == Flipped(o[2..8]) && q.data == o[8..] &&
            q.channel == channel
  {
    hide Whitened, CrcBits, AllLsbBits, Packed, Heard, TableRun, WordOctets, Preset, Parsed;
    PduIsHeard(raw, channel, o);
    ValidIsParsed(Packed(Whitened(Heard(raw), channel)), channel, o, TableRun(Preset(), o));
  }

  lemma FrontOf<T>(bytes: seq<T>, o: seq<T>, crc: seq<T>)
    requires |o| >= 8 && |crc| == 3 && |o| + 3 <= |bytes| && bytes[..|o| + 3] == o + crc
    ensures bytes[0] == o[0] && bytes[1] == o[1] && bytes[..|o|] == o && bytes[2..8] == o[2..8] && bytes[8..|o|] == o[8..]
    ensures bytes[|o|] == crc[0] && bytes[|o| + 1] == crc[1] && bytes[|o| + 2] == crc[2]
  {
    var w := o + crc;
    assert forall i {:trigger w[i]} :: 0 <= i < |w| ==> bytes[i] == w[i];
  }

  /** Nothing else is accepted. */
  lemma AcceptedIsValid(raw: seq<bool>, channel: int) returns (o: seq<byte>)
    requires Received(raw, channel).Accepted?
    ensures HoldsPdu(Whitened(raw, channel), o)
  {
    hide Whitened, CrcBits, AllLsbBits, Heard, TableRun, LowOctetOf, MidOctetOf, HighOctetOf, Assembled, Preset, OctetAt;
    var bits := Whitened(Heard(raw), channel);
    var bytes := Packed(bits);
    var n := LengthOf(bytes[1]) + 2;
    o := bytes[..n];
    var crc := [bytes[n], bytes[n + 1], bytes[n + 2]];
    assert bytes[..n + 3] == o + crc;
    SendInvertsPack(bits, n + 3);
    SendAppend(o, crc);
    AssembledOctets(bytes[n], bytes[n + 1], bytes[n + 2]);
    CheckBits(o);
    HeardFront(raw, channel);
    assert bits[..8 * (n + 3)] <= bits;
  }

  /** The receiver accepts exactly the bits that begin with a valid PDU and its check bits, once they are dewhitened. */
  lemma AcceptedIff(raw: seq<bool>, channel: int)
    ensures Received(raw, channel).Accepted? <==> exists o :: HoldsPdu(Whitened(raw, channel), o)
  {
    hide Received, HoldsPdu, Whitened;
    if Received(raw, channel).Accepted? {
      var o := AcceptedIsValid(raw, channel);
    }
    if exists o :: HoldsPdu(Whitened(raw, channel), o) {
      var o :| HoldsPdu(Whitened(raw, channel), o);
      ValidIsAccepted(raw, channel, o);
    }
  }

  // ----- finding the access address

  function SlideOctet(r: bv32, b: byte): bv32 {
    Slide(Slide(Slide(Slide(Slide(Slide(Slide(Slide(r, b & 0x01 != 0), b & 0x02 != 0), b & 0x04 != 0), b & 0x08 != 0),
      b & 0x10 != 0), b & 0x20 != 0), b & 0x40 != 0), b & 0x80 != 0)
  }

  lemma FourOctets(r: bv32)
    ensures SlideOctet(SlideOctet(SlideOctet(SlideOctet(r, 0xD6), 0xBE), 0x89), 0x8E) == ACCESS_WORD
  {
  }

  lemma RegisterPush(bits: seq<bool>, bit: bool)
    ensures Register(bits + [bit]) == Slide(Register(bits), bit)
  {
    assert (bits + [bit])[..|bits|] == bits;
  }

  lemma RegisterEight(bits: seq<bool>, s: seq<bool>)
    requires |s| == 8
    ensures Register(bits + s) ==
            Slide(Slide(Slide(Slide(Slide(Slide(Slide(Slide(Register(bits), s[0]), s[1]), s[2]), s[3]), s[4]), s[5]), s[6]), s[7])
  {
    hide Slide, Register;
    var half := bits + [s[0]] + [s[1]] + [s[2]] + [s[3]];
    RegisterPush(bits, s[0]);
    RegisterPush(bits + [s[0]], s[1]);
    RegisterPush(bits + [s[0]] + [s[1]], s[2]);
    RegisterPush(bits + [s[0]] + [s[1]] + [s[2]], s[3]);
    RegisterPush(half, s[4]);
    RegisterPush(half + [s[4]], s[5]);
    RegisterPush(half + [s[4]] + [s[5]], s[6]);
    RegisterPush(half + [s[4]] + [s[5]] + [s[6]], s[7]);
    EightPushes(bits, s);
  }

  lemma EightPushes<T>(bits: seq<T>, s: seq<T>)
    requires |s| == 8
    ensures bits + s == bits + [s[0]] + [s[1]] + [s[2]] + [s[3]] + [s[4]] + [s[5]] + [s[6]] + [s[7]]
  {
  }

  lemma RegisterOctet(bits: seq<bool>, b: byte)
    ensures Register(bits + LsbBits(b)) == SlideOctet(Register(bits), b)
  {
    hide Slide, Register;
    RegisterEight(bits, LsbBits(b));
  }

  /** Whatever came before, the transmitted access address leaves the receiver's register at the word
      it looks for. */
  lemma AccessAddressFound(before: seq<bool>)
    ensures Register(before + HexBits(ACCESS_ADDRESS, false, 4)) == ACCESS_WORD
  {
    hide SlideOctet, LsbBits, Register, HexBits;
    LeadIsFixed();
    var aa: seq<byte> := [0xD6, 0xBE, 0x89, 0x8E];
    AddressPieces(before);
    RegisterOctet(before, 0xD6);
    RegisterOctet(before + LsbBits(0xD6), 0xBE);
    RegisterOctet(before + LsbBits(0xD6) + LsbBits(0xBE), 0x89);
    RegisterOctet(before + LsbBits(0xD6) + LsbBits(0xBE) + LsbBits(0x89), 0x8E);
    FourOctets(Register(before));
  }

  lemma AddressPieces(before: seq<bool>)
    ensures before + AllLsbBits([0xD6, 0xBE, 0x89, 0x8E]) ==
            before + LsbBits(0xD6) + LsbBits(0xBE) + LsbBits(0x89) + LsbBits(0x8E)
  {
    hide LsbBits;
    var aa: seq<byte> := [0xD6, 0xBE, 0x89, 0x8E];
    OctetSlice(aa, 0, 0);
    OctetSlice(aa, 1, 8);
    OctetSlice(aa, 2, 16);
    OctetSlice(aa, 3, 24);
    var g := AllLsbBits(aa);
    assert g == g[0..8] + g[8..16] + g[16..24] + g[24..32];
  }

  // ----- the printed address

  function Upper(c: char): char {
    if 'a' <= c <= 'f' then (c as int - 32) as char else c
  }

  /** Pairs of digits in upper case, separated by colons. */
  function Pairs(clean: string, n: nat): string
    requires 2 * n <= |clean|
  {
    if n == 0 then ""
    else Pairs(clean, n - 1) + (if n > 1 then ":" else "") + [Upper(clean[2 * n - 2]), Upper(clean[2 * n - 1])]
  }

  lemma NibblesBack(x: byte, y: byte)
    requires x < 16 && y < 16
    ensures ((x << 4) | y) >> 4 == x && ((x << 4) | y) & 0xF == y
  {
  }

  lemma DigitBack(c: char)
    requires IsHex(c)
    ensures HexNibble(c) < 16 && HexDigit(HexNibble(c)) == Upper(c)
  {
  }

  lemma HexTextBack(c: char, d: char)
    requires IsHex(c) && IsHex(d)
    ensures HexText(HexOctet(c, d)) == [Upper(c), Upper(d)]
  {
    hide HexNibble, Upper, HexDigit;
    DigitBack(c);
    DigitBack(d);
    NibblesBack(HexNibble(c), HexNibble(d));
    NibblesFit(HexOctet(c, d));
  }

  /** The address shown is the address entered, in upper case with colons. */
  lemma {:induction false} AddressTextBack(clean: string, n: nat)
    requires AllHex(clean) && |clean| % 2 == 0 && n <= |clean| / 2
    ensures AddressText(HexOctets(clean)[..n]) == Pairs(clean, n)
  {
    hide HexText, HexOctet, IsHex, Upper;
    if n > 0 {
      AddressTextBack(clean, n - 1);
      var octets := HexOctets(clean);
      assert octets[..n][..n - 1] == octets[..n - 1];
      assert octets[n - 1] == HexOctet(clean[2 * (n - 1)], clean[2 * (n - 1) + 1]);
      HexTextBack(clean[2 * n - 2], clean[2 * n - 1]);
    }
  }
}
