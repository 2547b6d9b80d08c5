/** AIS framing (src/apps/ais_app.cpp): NRZI, HDLC transparency, and the frame check in its two
    spellings. */
module Ais {
  import opened Bits
  import Crc16

  // ----- NRZI

  /** The line levels for a list of bits: a one leaves the level, a zero flips it; the line starts low. */
  function Encoded(bits: seq<bool>): (r: seq<bool>)
    ensures |r| == |bits|
  {
    if bits == [] then []
    else
      var rest, bit := Encoded(bits[..|bits| - 1]), bits[|bits| - 1];
      rest + [if bit then Level(rest) else !Level(rest)]
  }

  function Level(levels: seq<bool>): bool {
    if levels == [] then false else levels[|levels| - 1]
  }

  function Decoded(levels: seq<bool>): (r: seq<bool>)
    ensures |r| == |levels|
  {
    if levels == [] then []
    else
      var n := |levels| - 1;
      Decoded(levels[..n]) + [levels[n] == Level(levels[..n])]
  }

  method NrziEncode(bits: seq<bool>) returns (out: seq<bool>)
    ensures out == Encoded(bits)
  {
    out := [];
    var last := false;
    for i := 0 to |bits|
      invariant out == Encoded(bits[..i]) && last == Level(out)
    {
      assert bits[..i + 1][..i] == bits[..i];
      last := if bits[i] then last else !last;
      out := out + [last];
    }
    assert bits[..|bits|] == bits;
  }

  method NrziDecode(symbols: seq<bool>) returns (out: seq<bool>)
    ensures out == Decoded(symbols)
  {
    out := [];
    var last := false;
    for i := 0 to |symbols|
      invariant out == Decoded(symbols[..i]) && last == Level(symbols[..i])
    {
      assert symbols[..i + 1][..i] == symbols[..i];
      out := out + [symbols[i] == last];
      last := symbols[i];
    }
    assert symbols[..|symbols|] == symbols;
  }

  lemma DecodedPush(levels: seq<bool>, last: bool)
    ensures Decoded(levels + [last]) == Decoded(levels) + [last == Level(levels)]
  {
    assert (levels + [last])[..|levels|] == levels;
  }

  /** A one holds the level in front of it and a zero turns it. */
  lemma LevelBehind(bits: seq<bool>, n: nat)
    requires |bits| == n + 1
    ensures Encoded(bits)[n] == (bits[n] == Level(Encoded(bits[..n])))
  {
  }

  lemma {:induction false} DecoderInvertsEncoder(bits: seq<bool>)
    ensures Decoded(Encoded(bits)) == bits
  {
    if bits != [] {
      var n := |bits| - 1;
      hide Decoded, Level;
      DecoderInvertsEncoder(bits[..n]);
      var levels, last := Encoded(bits[..n]), Encoded(bits)[n];
      assert Encoded(bits) == levels + [last];
      DecodedPush(levels, last);
      LevelBehind(bits, n);
      assert bits == bits[..n] + [bits[n]];
    }
  }

  lemma {:induction false} EncoderInvertsDecoder(levels: seq<bool>)
    ensures Encoded(Decoded(levels)) == levels
  {
    if levels != [] {
      var n := |levels| - 1;
      EncoderInvertsDecoder(levels[..n]);
      assert Decoded(levels)[..n] == Decoded(levels[..n]);
      assert levels == levels[..n] + [levels[n]];
    }
  }

  function Zeros(bits: seq<bool>): nat { if bits == [] then 0 else Zeros(bits[..|bits| - 1]) + if bits[|bits| - 1] then 0 else 1 }

  /** The line is high exactly behind an odd number of zeros. */
  lemma {:induction false} HighBehindOddZeros(bits: seq<bool>)
    ensures forall i :: 0 <= i < |bits| ==> Encoded(bits)[i] == (Zeros(bits[..i + 1]) % 2 == 1)
    ensures Level(Encoded(bits)) == (Zeros(bits) % 2 == 1)
  {
    if bits != [] {
      var n := |bits| - 1;
      HighBehindOddZeros(bits[..n]);
      forall i | 0 <= i < n
        ensures Encoded(bits)[i] == (Zeros(bits[..i + 1]) % 2 == 1)
      {
        assert bits[..n][..i + 1] == bits[..i + 1];
      }
      assert bits[..n + 1] == bits;
    }
  }

  // ----- bit stuffing

  /** Ones since the last zero, counting a stuffed zero. */
  function StuffOnes(bits: seq<bool>): (n: nat)
    ensures n < 5
  {
    if bits == [] || !bits[|bits| - 1] then 0
    else (StuffOnes(bits[..|bits| - 1]) + 1) % 5
  }

  function Stuffed(bits: seq<bool>): seq<bool> {
    if bits == [] then []
    else
      var rest, bit := Stuffed(bits[..|bits| - 1]), bits[|bits| - 1];
      if bit && StuffOnes(bits[..|bits| - 1]) == 4 then rest + [true, false] else rest + [bit]
  }

  method HdlcStuff(bits: seq<bool>) returns (out: seq<bool>)
    ensures out == Stuffed(bits)
  {
    out := [];
    var ones := 0;
    for i := 0 to |bits|
      invariant out == Stuffed(bits[..i]) && ones == StuffOnes(bits[..i])
    {
      assert bits[..i + 1][..i] == bits[..i];
      ghost var before := out;
      out := out + [bits[i]];
      if bits[i] {
        ones := ones + 1;
        if ones == 5 {
          out := out + [false];
          ones := 0;
          assert out == before + [true, false];
        }
      } else {
        ones := 0;
      }
    }
    assert bits[..|bits|] == bits;
  }

  /** Ones at the end of a list. */
  function TrailingOnes(bits: seq<bool>): nat {
    if bits == [] || !bits[|bits| - 1] then 0 else TrailingOnes(bits[..|bits| - 1]) + 1
  }

  /** A zero behind five or more ones is dropped. */
  function Destuffed(bits: seq<bool>): seq<bool> {
    if bits == [] then []
    else
      var rest, bit := Destuffed(bits[..|bits| - 1]), bits[|bits| - 1];
      if !bit && TrailingOnes(bits[..|bits| - 1]) >= 5 then rest else rest + [bit]
  }

  method HdlcDestuff(bits: seq<bool>) returns (out: seq<bool>)
    ensures out == Destuffed(bits)
  {
    out := [];
    var ones := 0;
    for i := 0 to |bits|
      invariant out == Destuffed(bits[..i]) && ones == TrailingOnes(bits[..i])
    {
      assert bits[..i + 1][..i] == bits[..i];
      if ones >= 5 && !bits[i] {
        ones := 0;
      } else {
        out := out + [bits[i]];
        ones := if bits[i] then ones + 1 else 0;
      }
    }
    assert bits[..|bits|] == bits;
  }

  lemma DestuffPush(bits: seq<bool>, bit: bool)
    ensures TrailingOnes(bits + [bit]) == if bit then TrailingOnes(bits) + 1 else 0
    ensures Destuffed(bits + [bit]) == if !bit && TrailingOnes(bits) >= 5 then Destuffed(bits) else Destuffed(bits) + [bit]
  {
    assert (bits + [bit])[..|bits|] == bits;
  }

  /** Destuffing inverts stuffing, and both sides count the same run of ones. */
  lemma {:induction false} DestuffInvertsStuff(bits: seq<bool>)
    ensures Destuffed(Stuffed(bits)) == bits
    ensures TrailingOnes(Stuffed(bits)) == StuffOnes(bits)
  {
    hide Destuffed, TrailingOnes;
    if bits == [] {
      DestuffNothing();
    } else {
      var n := |bits| - 1;
      DestuffInvertsStuff(bits[..n]);
      var rest := Stuffed(bits[..n]);
      DestuffPush(rest, bits[n]);
      assert bits == bits[..n] + [bits[n]];
      if bits[n] && StuffOnes(bits[..n]) == 4 {
        DestuffPush(rest + [true], false);
        assert rest + [true, false] == rest + [true] + [false];
      }
    }
  }

  lemma DestuffNothing()
    ensures Destuffed([]) == [] && TrailingOnes([]) == 0
  {
  }

  predicate SixOnesAt(s: seq<bool>, i: nat)
    requires i + 6 <= |s|
  {
    s[i] && s[i + 1] && s[i + 2] && s[i + 3] && s[i + 4] && s[i + 5]
  }

  lemma {:induction false} RunEndsHere(s: seq<bool>, i: nat)
    requires i + 6 <= |s| && SixOnesAt(s, i)
    ensures TrailingOnes(s[..i + 6]) >= 6
  {
    assert s[..i + 6][..i + 5] == s[..i + 5];
    assert s[..i + 5][..i + 4] == s[..i + 4];
    assert s[..i + 4][..i + 3] == s[..i + 3];
    assert s[..i + 3][..i + 2] == s[..i + 2];
    assert s[..i + 2][..i + 1] == s[..i + 1];
    assert s[..i + 1][..i] == s[..i];
    assert TrailingOnes(s[..i + 1]) >= 1;
    assert TrailingOnes(s[..i + 3]) >= 3;
    assert TrailingOnes(s[..i + 5]) >= 5;
  }

  lemma {:induction false} ShortRuns(bits: seq<bool>, k: nat)
    requires k <= |Stuffed(bits)|
    ensures TrailingOnes(Stuffed(bits)[..k]) <= 5
  {
    if bits != [] {
      var n := |bits| - 1;
      var rest, out := Stuffed(bits[..n]), Stuffed(bits);
      if k <= |rest| {
        assert out[..k] == rest[..k];
        ShortRuns(bits[..n], k);
      } else {
        DestuffInvertsStuff(bits[..n]);
        DestuffPush(rest, bits[n]);
        DestuffPush(rest + [bits[n]], false);
        assert out[..k] == rest + [bits[n]] || out[..k] == rest + [bits[n]] + [false];
      }
    }
  }

  /** A stuffed list never holds six ones in a row, so it never looks like a flag or an abort. */
  lemma NoSixOnes(bits: seq<bool>, i: nat)
    requires i + 6 <= |Stuffed(bits)|
    ensures !SixOnesAt(Stuffed(bits), i)
  {
    if SixOnesAt(Stuffed(bits), i) {
      RunEndsHere(Stuffed(bits), i);
      ShortRuns(bits, i + 6);
    }
  }

  // ----- frame construction

  /** The sixteen bits of a check sequence in transmission order. */
  function CheckBits(f: bv16): (r: seq<bool>)
    ensures |r| == 16
  {
    LsbBits(Crc16.LowByte(f)) + LsbBits(Crc16.HighByte(f))
  }

  /** Seven of the closing flag's bits; the unstuffer swallows the eighth. */
  const FLAG_HEAD := [false, true, true, true, true, true, true]

  function PayloadAndFcsBits(payload: seq<byte>): (r: seq<bool>)
    ensures |r| == 8 * |payload| + 16
  {
    AllLsbBits(payload) + CheckBits(Crc16.Fcs(payload))
  }

  function PacketBits(payload: seq<byte>): (r: seq<bool>)
    ensures |r| == 8 * |payload| + 23
  {
    PayloadAndFcsBits(payload) + FLAG_HEAD
  }

  method BuildPacketBits(payload: seq<byte>) returns (bits: seq<bool>)
    ensures bits == PacketBits(payload)
  {
    bits := [];
    for i := 0 to |payload|
      invariant bits == AllLsbBits(payload[..i])
    {
      assert payload[..i + 1][..i] == payload[..i];
      bits := bits + LsbBits(payload[i]);
    }
    assert payload[..|payload|] == payload;
    var crc := new Crc16.Engine();
    crc.ProcessBytes(payload);
    var f := crc.Checksum();
    bits := bits + CheckBits(f);
    bits := bits + FLAG_HEAD;
  }

  // ----- the received packet

  /** dsp::Packet silently drops what does not fit. */
  const CAPACITY: nat := 2560

  function Kept(bits: seq<bool>): seq<bool> {
    if |bits| <= CAPACITY then bits else bits[..CAPACITY]
  }

  method FromBits(bits: seq<bool>) returns (packet: seq<bool>)
    ensures packet == Kept(bits)
    ensures packet <= bits && |packet| == if |bits| < 2560 then |bits| else 2560
  {
    packet := [];
    for i := 0 to |bits|
      invariant packet == Kept(bits[..i])
    {
      assert bits[..i + 1] == bits[..i] + [bits[i]];
      if |packet| < CAPACITY {
        packet := packet + [bits[i]];
      }
    }
    assert bits[..|bits|] == bits;
  }

  function DataAndFcsLength(packet: seq<bool>): nat {
    if |packet| >= 7 then |packet| - 7 else 0
  }

  function DataLength(packet: seq<bool>): nat {
    var n := DataAndFcsLength(packet);
    if n >= 16 then n - 16 else 0
  }

  function BitAt(packet: seq<bool>, i: nat): bool {
    if i < |packet| then packet[i] else false
  }

  /** A field read most significant bit first, at most sixteen bits wide. */
  function ReadStream(packet: seq<bool>, start: nat, n: nat): bv16 {
    if n == 0 then 0
    else Appended(ReadStream(packet, start, n - 1), BitAt(packet, start + n - 1))
  }

  function Appended(value: bv16, bit: bool): bv16 {
    (value << 1) | (if bit then 1 else 0)
  }

  /** The received frame check: a CRC that reflects nothing, over octets read in stream order. */
  predicate CrcOk(packet: seq<bool>) {
    var n := DataLength(packet);
    && n != 0 && n % 8 == 0
    && Matches(Crc16.Run(Crc16.INITIAL, packet[..n]), ReadStream(packet, n, 16))
  }

  predicate Matches(register: bv16, received: bv16) { register ^ Crc16.FINAL_XOR == received }

  /** Eight stream bits read as an octet and fed most significant bit first are the stream bits again. */
  lemma OctetReadBack(packet: seq<bool>, i: nat)
    requires i + 8 <= |packet|
    ensures MsbBits((ReadStream(packet, i, 8) & 0xFF) as byte) == packet[i..i + 8]
  {
    hide ReadStream, Eight, MsbBits;
    var b := packet[i..i + 8];
    ReadEight(packet, i, b[0], b[1], b[2], b[3], b[4], b[5], b[6], b[7]);
    EightBack(b[0], b[1], b[2], b[3], b[4], b[5], b[6], b[7]);
    assert b == [b[0], b[1], b[2], b[3], b[4], b[5], b[6], b[7]];
  }

  function Eight(a: bool, b: bool, c: bool, d: bool, e: bool, f: bool, g: bool, h: bool): bv16 {
    Appended(Appended(Appended(Appended(Appended(Appended(Appended(Appended(0, a), b), c), d), e), f), g), h)
  }

  lemma EightBack(a: bool, b: bool, c: bool, d: bool, e: bool, f: bool, g: bool, h: bool)
    ensures MsbBits((Eight(a, b, c, d, e, f, g, h) & 0xFF) as byte) == [a, b, c, d, e, f, g, h]
  {
  }

  lemma ReadEight(packet: seq<bool>, i: nat, a: bool, b: bool, c: bool, d: bool, e: bool, f: bool, g: bool, h: bool)
    requires i + 8 <= |packet| && packet[i..i + 8] == [a, b, c, d, e, f, g, h]
    ensures ReadStream(packet, i, 8) == Eight(a, b, c, d, e, f, g, h)
  {
    hide Appended;
    var w := packet[i..i + 8];
    assert BitAt(packet, i) == w[0] && BitAt(packet, i + 1) == w[1] && BitAt(packet, i + 2) == w[2] && BitAt(packet, i + 3) == w[3];
    assert BitAt(packet, i + 4) == w[4] && BitAt(packet, i + 5) == w[5] && BitAt(packet, i + 6) == w[6] && BitAt(packet, i + 7) == w[7];
    assert ReadStream(packet, i, 0) == 0;
    assert ReadStream(packet, i, 2) == Appended(Appended(0, a), b);
    assert ReadStream(packet, i, 4) == Appended(Appended(Appended(Appended(0, a), b), c), d);
    assert ReadStream(packet, i, 6) == Appended(Appended(Appended(Appended(Appended(Appended(0, a), b), c), d), e), f);
  }

  lemma RunOfNothing()
    ensures Crc16.Run(Crc16.INITIAL, []) == Crc16.INITIAL
  {
  }

  /** The register over the first `n` bits, fed an octet at a time. */
  method OctetCrc(packet: seq<bool>, n: nat) returns (r: bv16)
    requires n <= |packet| && n % 8 == 0
    ensures r == Crc16.Run(Crc16.INITIAL, packet[..n])
  {
    hide ReadStream, MsbBits, Crc16.Run;
    var crc := new Crc16.Engine();
    RunOfNothing();
    var i := 0;
    while i < n
      invariant 0 <= i <= n && i % 8 == 0
      invariant crc.remainder == Crc16.Run(Crc16.INITIAL, packet[..i])
    {
      OctetReadBack(packet, i);
      Crc16.RunAppend(Crc16.INITIAL, packet[..i], packet[i..i + 8]);
      assert packet[..i + 8] == packet[..i] + packet[i..i + 8];
      var octet := (ReadStream(packet, i, 8) & 0xFF) as byte;
      crc.ProcessByteMsbFirst(octet);
      i := i + 8;
    }
    r := crc.remainder;
  }

  method PacketCrcOk(packet: seq<bool>) returns (ok: bool)
    ensures ok == CrcOk(packet)
  {
    hide ReadStream, Crc16.Run, Matches;
    var n := DataLength(packet);
    ok := n != 0 && n % 8 == 0;
    if ok {
      var r := OctetCrc(packet, n);
      ok := Matches(r, ReadStream(packet, n, 16));
    }
  }

  // ----- the two spellings agree

  function Sixteen(b: seq<bool>): bv16
    requires |b| == 16
  {
    Appended(Appended(Appended(Appended(Appended(Appended(Appended(Appended(
      Eight(b[0], b[1], b[2], b[3], b[4], b[5], b[6], b[7]),
      b[8]), b[9]), b[10]), b[11]), b[12]), b[13]), b[14]), b[15])
  }

  lemma ReadNext(packet: seq<bool>, i: nat, n: nat, bit: bool)
    requires i + n < |packet| && packet[i + n] == bit
    ensures ReadStream(packet, i, n + 1) == Appended(ReadStream(packet, i, n), bit)
  {
  }

  lemma SixteenBits<T>(s: seq<T>, i: nat, b: seq<T>)
    requires |b| == 16 && i + 16 <= |s| && s[i..i + 16] == b
    ensures s[i..i + 8] == [b[0], b[1], b[2], b[3], b[4], b[5], b[6], b[7]]
    ensures forall k :: 8 <= k < 16 ==> s[i + k] == b[k]
  {
    assert s[i..i + 8] == s[i..i + 16][..8];
  }

  lemma ReadSixteen(packet: seq<bool>, i: nat, b: seq<bool>)
    requires |b| == 16 && i + 16 <= |packet| && packet[i..i + 16] == b
    ensures ReadStream(packet, i, 16) == Sixteen(b)
  {
    hide Appended, Eight, ReadStream;
    SixteenBits(packet, i, b);
    ReadEight(packet, i, b[0], b[1], b[2], b[3], b[4], b[5], b[6], b[7]);
    ReadFour(packet, i, 8, b[8], b[9], b[10], b[11]);
    ReadFour(packet, i, 12, b[12], b[13], b[14], b[15]);
  }

  lemma ReadFour(packet: seq<bool>, i: nat, n: nat, a: bool, b: bool, c: bool, d: bool)
    requires i + n + 4 <= |packet|
    requires packet[i + n] == a && packet[i + n + 1] == b && packet[i + n + 2] == c && packet[i + n + 3] == d
    ensures ReadStream(packet, i, n + 4) ==
            Appended(Appended(Appended(Appended(ReadStream(packet, i, n), a), b), c), d)
  {
    hide Appended;
    ReadNext(packet, i, n, a);
    ReadNext(packet, i, n + 1, b);
    ReadNext(packet, i, n + 2, c);
    ReadNext(packet, i, n + 3, d);
  }

  /** A check sequence sent least significant bit first and read most significant bit first comes out
      reflected, which undoes the reflection in its definition. */
  lemma CheckBitsReflect(r: bv16)
    ensures Sixteen(CheckBits(Crc16.Reflect(r) ^ Crc16.FINAL_XOR)) == r ^ Crc16.FINAL_XOR
  {
  }

  /** The receiver's non-reflected check accepts what the transmitter's reflected one signed: exactly
      the nonempty payloads that fit the packet. At 318 octets the flag is cut off, and from there on
      the frame is refused. */
  lemma CrcOkIffItFits(payload: seq<byte>)
    ensures CrcOk(Kept(PacketBits(payload))) <==> 1 <= |payload| <= 317
  {
    if |payload| <= 317 {
      FittingPacket(payload);
    } else {
      hide Matches, PacketBits;
      assert |Kept(PacketBits(payload))| == CAPACITY;
    }
  }

  lemma FittingPacket(payload: seq<byte>)
    requires |payload| <= 317
    ensures CrcOk(Kept(PacketBits(payload))) <==> 1 <= |payload|
  {
    hide ReadStream, Crc16.Run, Crc16.Reflect, AllLsbBits, CheckBits, Sixteen, Matches, FLAG_HEAD;
    var packet := PacketBits(payload);
    var data, check := AllLsbBits(payload), CheckBits(Crc16.Fcs(payload));
    var n := 8 * |payload|;
    assert |packet| == n + 23;
    assert DataLength(packet) == n && n % 8 == 0;
    Pieces(data, check, FLAG_HEAD);
    ReadSixteen(packet, n, check);
    CheckMatches(Crc16.Run(Crc16.INITIAL, data), payload);
  }

  lemma CheckMatches(r: bv16, payload: seq<byte>)
    requires r == Crc16.Run(Crc16.INITIAL, AllLsbBits(payload))
    ensures Matches(r, Sixteen(CheckBits(Crc16.Fcs(payload))))
  {
    hide Sixteen, CheckBits, Crc16.Reflect, Crc16.Run, AllLsbBits;
    CheckBitsReflect(r);
  }

  lemma Pieces<T>(a: seq<T>, b: seq<T>, c: seq<T>)
    ensures (a + b + c)[..|a|] == a && (a + b + c)[|a|..|a| + |b|] == b
  {
  }
}
