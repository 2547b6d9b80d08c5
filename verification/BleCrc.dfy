/** The BLE advertising CRC in its two forms: the transmitter's 24-stage shift register fed bit by bit
    (src/apps/ui_ble_tx.cpp) and the receiver's 256-entry table fed octet by octet
    (src/apps/ui_ble_rx.cpp). */
module BleCrc {
  import opened Bits

  // ----- the transmitter: an array of 24 stages

  /** The stages after one bit: the feedback enters stage 0 and the tapped stages. */
  function Next(bs: seq<bool>, bit: bool): (u: seq<bool>)
    requires |bs| == 24
    ensures |u| == 24
  {
    seq(24, i requires 0 <= i < 24 => NextStage(bs, bit, i))
  }

  function NextStage(bs: seq<bool>, bit: bool, i: nat): bool
    requires |bs| == 24 && i < 24
  {
    var nb := bs[23] != bit;
    if i == 0 then nb
    else if i == 1 || i == 3 || i == 4 || i == 6 || i == 9 || i == 10 then bs[i - 1] != nb
    else bs[i - 1]
  }

  function Serial(bs: seq<bool>, bits: seq<bool>): (u: seq<bool>)
    requires |bs| == 24
    ensures |u| == 24
  {
    if bits == [] then bs else Next(Serial(bs, bits[..|bits| - 1]), bits[|bits| - 1])
  }

  // ----- the receiver: a 24-bit word, stored so that it does not mix with other arithmetic

  datatype Word = Word(v: bv24)

  const TAPS: bv24 := 0xDA6000

  /** One step of the mirrored register: the bit that leaves on the right re-enters at the taps. */
  function Clock(w: Word): Word { Word((w.v >> 1) ^ ((w.v & 1) * TAPS)) }

  function Plus(a: Word, b: Word): Word { Word(a.v ^ b.v) }

  const ZERO := Word(0)
  const ONE := Word(1)

  /** One bit into the mirrored register, added to the bit that leaves. */
  function Shift(w: Word, bit: bool): Word { Clock(Plus(w, if bit then ONE else ZERO)) }

  function EightClocks(w: Word): Word {
    Clock(Clock(Clock(Clock(Clock(Clock(Clock(Clock(w))))))))
  }

  /** One of eight by the low three bits of an index. */
  function Pick(i: byte, e0: bv24, e1: bv24, e2: bv24, e3: bv24, e4: bv24, e5: bv24, e6: bv24, e7: bv24): bv24 {
    if i & 4 == 0 then (if i & 2 == 0 then (if i & 1 == 0 then e0 else e1) else if i & 1 == 0 then e2 else e3)
    else if i & 2 == 0 then (if i & 1 == 0 then e4 else e5) else if i & 1 == 0 then e6 else e7
  }

  /** kCrcTable, row by row. */
  function Table(i: byte): bv24 {
    if i < 0x08 then Pick(i, 0x000000, 0x01b4c0, 0x036980, 0x02dd40, 0x06d300, 0x0767c0, 0x05ba80, 0x040e40)
    else if i < 0x10 then Pick(i, 0x0da600, 0x0c12c0, 0x0ecf80, 0x0f7b40, 0x0b7500, 0x0ac1c0, 0x081c80, 0x09a840)
    else if i < 0x18 then Pick(i, 0x1b4c00, 0x1af8c0, 0x182580, 0x199140, 0x1d9f00, 0x1c2bc0, 0x1ef680, 0x1f4240)
    else if i < 0x20 then Pick(i, 0x16ea00, 0x175ec0, 0x158380, 0x143740, 0x103900, 0x118dc0, 0x135080, 0x12e440)
    else if i < 0x28 then Pick(i, 0x369800, 0x372cc0, 0x35f180, 0x344540, 0x304b00, 0x31ffc0, 0x332280, 0x329640)
    else if i < 0x30 then Pick(i, 0x3b3e00, 0x3a8ac0, 0x385780, 0x39e340, 0x3ded00, 0x3c59c0, 0x3e8480, 0x3f3040)
    else if i < 0x38 then Pick(i, 0x2dd400, 0x2c60c0, 0x2ebd80, 0x2f0940, 0x2b0700, 0x2ab3c0, 0x286e80, 0x29da40)
    else if i < 0x40 then Pick(i, 0x207200, 0x21c6c0, 0x231b80, 0x22af40, 0x26a100, 0x2715c0, 0x25c880, 0x247c40)
    else if i < 0x48 then Pick(i, 0x6d3000, 0x6c84c0, 0x6e5980, 0x6fed40, 0x6be300, 0x6a57c0, 0x688a80, 0x693e40)
    else if i < 0x50 then Pick(i, 0x609600, 0x6122c0, 0x63ff80, 0x624b40, 0x664500, 0x67f1c0, 0x652c80, 0x649840)
    else if i < 0x58 then Pick(i, 0x767c00, 0x77c8c0, 0x751580, 0x74a140, 0x70af00, 0x711bc0, 0x73c680, 0x727240)
    else if i < 0x60 then Pick(i, 0x7bda00, 0x7a6ec0, 0x78b380, 0x790740, 0x7d0900, 0x7cbdc0, 0x7e6080, 0x7fd440)
    else if i < 0x68 then Pick(i, 0x5ba800, 0x5a1cc0, 0x58c180, 0x597540, 0x5d7b00, 0x5ccfc0, 0x5e1280, 0x5fa640)
    else if i < 0x70 then Pick(i, 0x560e00, 0x57bac0, 0x556780, 0x54d340, 0x50dd00, 0x5169c0, 0x53b480, 0x520040)
    else if i < 0x78 then Pick(i, 0x40e400, 0x4150c0, 0x438d80, 0x423940, 0x463700, 0x4783c0, 0x455e80, 0x44ea40)
    else if i < 0x80 then Pick(i, 0x4d4200, 0x4cf6c0, 0x4e2b80, 0x4f9f40, 0x4b9100, 0x4a25c0, 0x48f880, 0x494c40)
    else if i < 0x88 then Pick(i, 0xda6000, 0xdbd4c0, 0xd90980, 0xd8bd40, 0xdcb300, 0xdd07c0, 0xdfda80, 0xde6e40)
    else if i < 0x90 then Pick(i, 0xd7c600, 0xd672c0, 0xd4af80, 0xd51b40, 0xd11500, 0xd0a1c0, 0xd27c80, 0xd3c840)
    else if i < 0x98 then Pick(i, 0xc12c00, 0xc098c0, 0xc24580, 0xc3f140, 0xc7ff00, 0xc64bc0, 0xc49680, 0xc52240)
    else if i < 0xa0 then Pick(i, 0xcc8a00, 0xcd3ec0, 0xcfe380, 0xce5740, 0xca5900, 0xcbedc0, 0xc93080, 0xc88440)
    else if i < 0xa8 then Pick(i, 0xecf800, 0xed4cc0, 0xef9180, 0xee2540, 0xea2b00, 0xeb9fc0, 0xe94280, 0xe8f640)
    else if i < 0xb0 then Pick(i, 0xe15e00, 0xe0eac0, 0xe23780, 0xe38340, 0xe78d00, 0xe639c0, 0xe4e480, 0xe55040)
    else if i < 0xb8 then Pick(i, 0xf7b400, 0xf600c0, 0xf4dd80, 0xf56940, 0xf16700, 0xf0d3c0, 0xf20e80, 0xf3ba40)
    else if i < 0xc0 then Pick(i, 0xfa1200, 0xfba6c0, 0xf97b80, 0xf8cf40, 0xfcc100, 0xfd75c0, 0xffa880, 0xfe1c40)
    else if i < 0xc8 then Pick(i, 0xb75000, 0xb6e4c0, 0xb43980, 0xb58d40, 0xb18300, 0xb037c0, 0xb2ea80, 0xb35e40)
    else if i < 0xd0 then Pick(i, 0xbaf600, 0xbb42c0, 0xb99f80, 0xb82b40, 0xbc2500, 0xbd91c0, 0xbf4c80, 0xbef840)
    else if i < 0xd8 then Pick(i, 0xac1c00, 0xada8c0, 0xaf7580, 0xaec140, 0xaacf00, 0xab7bc0, 0xa9a680, 0xa81240)
    else if i < 0xe0 then Pick(i, 0xa1ba00, 0xa00ec0, 0xa2d380, 0xa36740, 0xa76900, 0xa6ddc0, 0xa40080, 0xa5b440)
    else if i < 0xe8 then Pick(i, 0x81c800, 0x807cc0, 0x82a180, 0x831540, 0x871b00, 0x86afc0, 0x847280, 0x85c640)
    else if i < 0xf0 then Pick(i, 0x8c6e00, 0x8ddac0, 0x8f0780, 0x8eb340, 0x8abd00, 0x8b09c0, 0x89d480, 0x886040)
    else if i < 0xf8 then Pick(i, 0x9a8400, 0x9b30c0, 0x99ed80, 0x985940, 0x9c5700, 0x9de3c0, 0x9f3e80, 0x9e8a40)
    else Pick(i, 0x972200, 0x9696c0, 0x944b80, 0x95ff40, 0x91f100, 0x9045c0, 0x929880, 0x932c40)
  }

  function Entry(i: byte): Word { Word(Table(i)) }

  function Octet(b: byte): Word { Word(b as bv24) }

  function LowOctet(w: Word): byte { (w.v & 0xFF) as byte }

  function Down(w: Word): Word { Word(w.v >> 8) }

  /** One octet through the table. */
  function TableStep(crc: Word, b: byte): Word {
    Plus(Entry(LowOctet(Plus(crc, Octet(b)))), Down(crc))
  }

  function TableRun(crc: Word, data: seq<byte>): Word {
    if data == [] then crc else TableStep(TableRun(crc, data[..|data| - 1]), data[|data| - 1])
  }

  // ----- one table step is eight register steps

  /** Each of the 256 entries is eight steps of the register. */
  lemma EntryIsEightClocks(i: byte)
    ensures Entry(i) == EightClocks(Octet(i))
  {
  }

  lemma ClockIsLinear(a: Word, b: Word)
    ensures Clock(Plus(a, b)) == Plus(Clock(a), Clock(b))
  {
  }

  lemma ClocksAreLinear(a: Word, b: Word)
    ensures EightClocks(Plus(a, b)) == Plus(EightClocks(a), EightClocks(b))
  {
    hide Clock, Plus;
    var a1, b1 := Clock(a), Clock(b);
    var a2, b2 := Clock(a1), Clock(b1);
    var a3, b3 := Clock(a2), Clock(b2);
    var a4, b4 := Clock(a3), Clock(b3);
    var a5, b5 := Clock(a4), Clock(b4);
    var a6, b6 := Clock(a5), Clock(b5);
    var a7, b7 := Clock(a6), Clock(b6);
    ClockIsLinear(a, b);
    ClockIsLinear(a1, b1);
    ClockIsLinear(a2, b2);
    ClockIsLinear(a3, b3);
    ClockIsLinear(a4, b4);
    ClockIsLinear(a5, b5);
    ClockIsLinear(a6, b6);
    ClockIsLinear(a7, b7);
  }

  function High(w: Word): Word { Word(w.v & 0xFFFF00) }

  lemma LowAndHigh(w: Word)
    ensures w == Plus(Octet(LowOctet(w)), High(w))
  {
  }

  /** What eight steps do with the high stages is shift them down. */
  lemma HighClocks(w: Word)
    ensures EightClocks(High(w)) == Down(w)
  {
  }

  lemma DownOfSum(w: Word, b: byte)
    ensures Down(Plus(w, Octet(b))) == Down(w)
  {
  }

  lemma ClocksSplit(w: Word)
    ensures EightClocks(w) == Plus(EightClocks(Octet(LowOctet(w))), Down(w))
  {
    hide *;
    LowAndHigh(w);
    ClocksAreLinear(Octet(LowOctet(w)), High(w));
    HighClocks(w);
  }

  function ShiftOctet(w: Word, b: byte): Word {
    Shift(Shift(Shift(Shift(Shift(Shift(Shift(Shift(w,
      b & 0x01 != 0), b & 0x02 != 0), b & 0x04 != 0), b & 0x08 != 0),
      b & 0x10 != 0), b & 0x20 != 0), b & 0x40 != 0), b & 0x80 != 0)
  }

  function Half(w: Word): Word { Word(w.v >> 1) }

  predicate Odd(w: Word) { w.v & 1 != 0 }

  /** A step in which one more bit is added at the front, while the bits behind it wait. */
  lemma PeelBit(w: Word, rest: Word)
    ensures Clock(Plus(w, rest)) == Plus(Shift(w, Odd(rest)), Half(rest))
  {
    if Odd(rest) {
    } else {
    }
  }

  lemma PlusZero(w: Word)
    ensures Plus(w, ZERO) == w
  {
  }

  /** The bits of an octet, least significant first, as halving uncovers them. */
  lemma HalvedOctet(b: byte)
    ensures Odd(Octet(b)) == (b & 0x01 != 0)
    ensures Odd(Half(Octet(b))) == (b & 0x02 != 0)
    ensures Odd(Half(Half(Octet(b)))) == (b & 0x04 != 0)
    ensures Odd(Half(Half(Half(Octet(b))))) == (b & 0x08 != 0)
    ensures Odd(Half(Half(Half(Half(Octet(b)))))) == (b & 0x10 != 0)
    ensures Odd(Half(Half(Half(Half(Half(Octet(b))))))) == (b & 0x20 != 0)
    ensures Odd(Half(Half(Half(Half(Half(Half(Octet(b)))))))) == (b & 0x40 != 0)
    ensures Odd(Half(Half(Half(Half(Half(Half(Half(Octet(b))))))))) == (b & 0x80 != 0)
    ensures Half(Half(Half(Half(Half(Half(Half(Half(Octet(b))))))))) == ZERO
  {
  }

  /** Adding the octet up front is the same as adding its bits one by one. */
  lemma OctetUpFront(w: Word, b: byte)
    ensures ShiftOctet(w, b) == EightClocks(Plus(w, Octet(b)))
  {
    hide Clock, Shift, Plus, Octet, Half, Odd, ZERO;
    HalvedOctet(b);
    var w1 := Shift(w, b & 0x01 != 0);
    var w2 := Shift(w1, b & 0x02 != 0);
    var w3 := Shift(w2, b & 0x04 != 0);
    var w4 := Shift(w3, b & 0x08 != 0);
    var w5 := Shift(w4, b & 0x10 != 0);
    var w6 := Shift(w5, b & 0x20 != 0);
    var w7 := Shift(w6, b & 0x40 != 0);
    PeelBit(w, Octet(b));
    PeelBit(w1, Half(Octet(b)));
    PeelBit(w2, Half(Half(Octet(b))));
    PeelBit(w3, Half(Half(Half(Octet(b)))));
    PeelBit(w4, Half(Half(Half(Half(Octet(b))))));
    PeelBit(w5, Half(Half(Half(Half(Half(Octet(b)))))));
    PeelBit(w6, Half(Half(Half(Half(Half(Half(Octet(b))))))));
    PeelBit(w7, Half(Half(Half(Half(Half(Half(Half(Octet(b)))))))));
    PlusZero(Shift(w7, b & 0x80 != 0));
  }

  /** One table step is eight register steps. */
  lemma TableStepIsOctet(w: Word, b: byte)
    ensures TableStep(w, b) == ShiftOctet(w, b)
  {
    hide Entry, ShiftOctet, EightClocks, LowOctet, Octet, Plus, Down;
    var sum := Plus(w, Octet(b));
    OctetUpFront(w, b);
    ClocksSplit(sum);
    DownOfSum(w, b);
    EntryIsEightClocks(LowOctet(sum));
  }

  // ----- the word is the stages in a mirror

  /** The mask of bit `i`. */
  function Mask(i: nat): bv24 { if i == 0 then 1 else Mask(i - 1) << 1 }

  predicate Meets(w: Word, m: bv24) { w.v & m != 0 }

  /** Bit `i` of a word. */
  predicate BitAt(w: Word, i: nat) { Meets(w, Mask(i)) }

  lemma HalfMeets(w: Word, m: bv24)
    ensures Meets(Half(w), m) == Meets(w, m << 1)
  {
  }

  lemma HalfOfSum(a: Word, b: Word)
    ensures Half(Plus(a, b)) == Plus(Half(a), Half(b))
    ensures Meets(Plus(a, b), 1) == (Meets(a, 1) != Meets(b, 1))
  {
  }

  lemma HalfBit(w: Word, i: nat)
    ensures BitAt(Half(w), i) == BitAt(w, i + 1)
  {
    hide Half, Meets;
    HalfMeets(w, Mask(i));
  }

  lemma {:induction false} PlusBit(a: Word, b: Word, i: nat)
    ensures BitAt(Plus(a, b), i) == (BitAt(a, i) != BitAt(b, i))
    decreases i
  {
    hide Half, Plus, Meets, Mask;
    HalfOfSum(a, b);
    LowestMask();
    if i > 0 {
      PlusBit(Half(a), Half(b), i - 1);
      HalfBit(a, i - 1);
      HalfBit(b, i - 1);
      HalfBit(Plus(a, b), i - 1);
    }
  }

  lemma LowestMask()
    ensures Mask(0) == 1
  {
  }

  lemma MaskValues()
    ensures Mask(0) == 0x000001 && Mask(1) == 0x000002 && Mask(2) == 0x000004 && Mask(3) == 0x000008
    ensures Mask(4) == 0x000010 && Mask(5) == 0x000020 && Mask(6) == 0x000040 && Mask(7) == 0x000080
    ensures Mask(8) == 0x000100 && Mask(9) == 0x000200 && Mask(10) == 0x000400 && Mask(11) == 0x000800
    ensures Mask(12) == 0x001000 && Mask(13) == 0x002000 && Mask(14) == 0x004000 && Mask(15) == 0x008000
    ensures Mask(16) == 0x010000 && Mask(17) == 0x020000 && Mask(18) == 0x040000 && Mask(19) == 0x080000
    ensures Mask(20) == 0x100000 && Mask(21) == 0x200000 && Mask(22) == 0x400000 && Mask(23) == 0x800000
    ensures Mask(24) == 0
  {
    assert Mask(0) == 0x000001;
    assert Mask(2) == 0x000004;
    assert Mask(4) == 0x000010;
    assert Mask(6) == 0x000040;
    assert Mask(8) == 0x000100;
    assert Mask(10) == 0x000400;
    assert Mask(12) == 0x001000;
    assert Mask(14) == 0x004000;
    assert Mask(16) == 0x010000;
    assert Mask(18) == 0x040000;
    assert Mask(20) == 0x100000;
    assert Mask(22) == 0x400000;
  }

  predicate Tapped(i: nat) {
    i == 13 || i == 14 || i == 17 || i == 19 || i == 20 || i == 22 || i == 23
  }

  lemma TapsBit(i: nat)
    requires i < 24
    ensures BitAt(Word(TAPS), i) == Tapped(i)
  {
    hide Mask;
    MaskValues();
  }

  lemma ClockIsHalfPlusTaps(w: Word)
    ensures Clock(w) == Plus(Half(w), if Meets(w, 1) then Word(TAPS) else ZERO)
  {
    if Meets(w, 1) {
    } else {
    }
  }

  lemma UnitBits(i: nat)
    ensures !BitAt(ZERO, i)
    ensures BitAt(ONE, i) == (i == 0)
  {
  }

  /** What a step does to each bit. */
  lemma ShiftBit(w: Word, bit: bool, i: nat)
    requires i < 24
    ensures BitAt(Shift(w, bit), i) == ((i < 23 && BitAt(w, i + 1)) != (Tapped(i) && BitAt(w, 0) != bit))
  {
    hide BitAt, Clock, Half, Plus, ONE, ZERO;
    var x := Plus(w, if bit then ONE else ZERO);
    LowBitIs(x);
    ClockIsHalfPlusTaps(x);
    PlusBit(Half(x), if BitAt(x, 0) then Word(TAPS) else ZERO, i);
    HalfBit(x, i);
    PlusBit(w, if bit then ONE else ZERO, i + 1);
    PlusBit(w, if bit then ONE else ZERO, 0);
    UnitBits(i + 1);
    UnitBits(0);
    UnitBits(i);
    TapsBit(i);
    NoBit24(w);
  }

  lemma LowBitIs(w: Word)
    ensures BitAt(w, 0) == Meets(w, 1)
  {
  }

  lemma NoBit24(w: Word)
    ensures !BitAt(w, 24)
  {
    MaskValues();
  }

  /** The word is the mirror image of the stages. */
  predicate Shows(w: Word, bs: seq<bool>) {
    |bs| == 24 && forall i :: 0 <= i < 24 ==> BitAt(w, i) == bs[23 - i]
  }

  lemma TapsMirrored(bs: seq<bool>, bit: bool, i: nat)
    requires |bs| == 24 && i < 24
    ensures NextStage(bs, bit, 23 - i) == ((i < 23 && bs[22 - i]) != (Tapped(i) && bs[23] != bit))
  {
  }

  /** The two register layouts stay mirror images through a step. */
  lemma ShowsStep(w: Word, bs: seq<bool>, bit: bool)
    requires Shows(w, bs)
    ensures Shows(Shift(w, bit), Next(bs, bit))
  {
    hide BitAt, Shift, Tapped;
    forall i | 0 <= i < 24
      ensures BitAt(Shift(w, bit), i) == Next(bs, bit)[23 - i]
    {
      ShiftBit(w, bit, i);
      assert BitAt(w, 0) == bs[23 - 0];
      assert i < 23 ==> BitAt(w, i + 1) == bs[23 - (i + 1)];
      TapsMirrored(bs, bit, i);
    }
  }

  // ----- whole runs

  lemma {:induction false} SerialAppend(bs: seq<bool>, a: seq<bool>, b: seq<bool>)
    requires |bs| == 24
    ensures Serial(bs, a + b) == Serial(Serial(bs, a), b)
    decreases |b|
  {
    hide Next;
    if b == [] {
      assert a + b == a;
    } else {
      var n := |b| - 1;
      assert (a + b)[..|a| + n] == a + b[..n];
      SerialAppend(bs, a, b[..n]);
    }
  }

  lemma SerialPush(bs: seq<bool>, bits: seq<bool>, n: nat)
    requires |bs| == 24 && n < |bits|
    ensures Serial(bs, bits[..n + 1]) == Next(Serial(bs, bits[..n]), bits[n])
  {
    assert bits[..n + 1][..n] == bits[..n];
  }

  lemma {:induction false} ShowsBits(w: Word, bs: seq<bool>, bits: seq<bool>, n: nat) returns (v: Word)
    requires |bs| == 24 && Shows(w, bs) && n <= |bits|
    ensures Shows(v, Serial(bs, bits[..n])) && v == Shifted(w, bits, n)
  {
    hide Shows, Shift, Next;
    if n == 0 {
      v := w;
    } else {
      var u := ShowsBits(w, bs, bits, n - 1);
      SerialPush(bs, bits, n - 1);
      ShowsStep(u, Serial(bs, bits[..n - 1]), bits[n - 1]);
      v := Shift(u, bits[n - 1]);
    }
  }

  function Shifted(w: Word, bits: seq<bool>, n: nat): Word
    requires n <= |bits|
  {
    if n == 0 then w else Shift(Shifted(w, bits, n - 1), bits[n - 1])
  }

  lemma ShiftedOctet(w: Word, b: byte)
    ensures Shifted(w, LsbBits(b), 8) == ShiftOctet(w, b)
  {
    hide Shift;
    var bits := LsbBits(b);
    assert Shifted(w, bits, 0) == w;
    assert Shifted(w, bits, 2) == Shift(Shift(w, b & 0x01 != 0), b & 0x02 != 0);
    assert Shifted(w, bits, 4) == Shift(Shift(Shifted(w, bits, 2), b & 0x04 != 0), b & 0x08 != 0);
    assert Shifted(w, bits, 6) == Shift(Shift(Shifted(w, bits, 4), b & 0x10 != 0), b & 0x20 != 0);
  }

  /** The table CRC refines the shift register: over the same octets, sent least significant bit
      first, it is the mirror image throughout, whatever the starting value. */
  lemma {:induction false} TableRefinesRegister(w: Word, bs: seq<bool>, data: seq<byte>)
    requires |bs| == 24 && Shows(w, bs)
    ensures Shows(TableRun(w, data), Serial(bs, AllLsbBits(data)))
  {
    hide Shows, TableStep, ShiftOctet;
    if data != [] {
      var n := |data| - 1;
      TableRefinesRegister(w, bs, data[..n]);
      var v, stages := TableRun(w, data[..n]), Serial(bs, AllLsbBits(data[..n]));
      SerialAppend(bs, AllLsbBits(data[..n]), LsbBits(data[n]));
      var u := ShowsBits(v, stages, LsbBits(data[n]), 8);
      assert LsbBits(data[n])[..8] == LsbBits(data[n]);
      ShiftedOctet(v, data[n]);
      TableStepIsOctet(v, data[n]);
    }
  }

  // ----- what a preset does

  function Different(a: seq<bool>, b: seq<bool>): (r: seq<bool>)
    requires |a| == |b|
    ensures |r| == |a|
  {
    seq(|a|, i requires 0 <= i < |a| => a[i] != b[i])
  }

  lemma NextLinear(a: seq<bool>, b: seq<bool>, x: bool, y: bool)
    requires |a| == 24 && |b| == 24
    ensures Next(Different(a, b), x != y) == Different(Next(a, x), Next(b, y))
  {
    forall i: nat | i < 24
      ensures NextStage(Different(a, b), x != y, i) == (NextStage(a, x, i) != NextStage(b, y, i))
    {
    }
  }

  lemma {:induction false} SerialLinear(a: seq<bool>, b: seq<bool>, x: seq<bool>, y: seq<bool>)
    requires |a| == 24 && |b| == 24 && |x| == |y|
    ensures Serial(Different(a, b), Different(x, y)) == Different(Serial(a, x), Serial(b, y))
    decreases |x|
  {
    hide Next;
    if x != [] {
      var n := |x| - 1;
      assert Different(x, y)[..n] == Different(x[..n], y[..n]);
      SerialLinear(a, b, x[..n], y[..n]);
      NextLinear(Serial(a, x[..n]), Serial(b, y[..n]), x[n], y[n]);
    }
  }

  /** The stages read out from the last one on. */
  function ReadOut(bs: seq<bool>, n: nat): (r: seq<bool>)
    requires |bs| == 24 && n <= 24
    ensures |r| == n
  {
    seq(n, i requires 0 <= i < n => bs[23 - i])
  }

  /** Fed its own last stage every time, a register has no feedback and runs empty. */
  lemma {:induction false} RunsOut(bs: seq<bool>, n: nat)
    requires |bs| == 24 && n <= 24
    ensures Serial(bs, ReadOut(bs, n)) == seq(24, i requires 0 <= i < 24 => i >= n && bs[i - n])
    decreases n
  {
    if n > 0 {
      RunsOut(bs, n - 1);
      assert ReadOut(bs, n)[..n - 1] == ReadOut(bs, n - 1);
    }
  }

  function NoStages(): (r: seq<bool>)
    ensures |r| == 24
  {
    seq(24, _ => false)
  }

  /** A preset is the same as no preset and the first 24 bits changed by it, last stage first. */
  lemma PresetIsData(bs: seq<bool>, bits: seq<bool>)
    requires |bs| == 24 && |bits| >= 24
    ensures Serial(bs, bits) == Serial(NoStages(), Different(bits[..24], ReadOut(bs, 24)) + bits[24..])
  {
    hide Next, Serial;
    var a, x, rest := bits[..24], ReadOut(bs, 24), bits[24..];
    RunsOut(bs, 24);
    assert Serial(bs, x) == NoStages();
    assert Different(bs, NoStages()) == bs;
    assert Different(x, Different(a, x)) == a;
    SerialLinear(bs, NoStages(), x, Different(a, x));
    assert Different(NoStages(), Serial(NoStages(), Different(a, x))) == Serial(NoStages(), Different(a, x));
    assert bits == a + rest;
    SerialAppend(bs, a, rest);
    SerialAppend(NoStages(), Different(a, x), rest);
  }

  // ----- the preset

  /** Three octets of the preset, high one first, each least significant bit first. */
  function PresetStages(init: Word): (r: seq<bool>)
    ensures |r| == 24
  {
    seq(24, k requires 0 <= k < 24 => BitAt(init, 16 - 8 * (k / 8) + k % 8))
  }

  function SwapOctets(w: Word): Word {
    Word(((w.v & 0x0000FF) << 16) | (w.v & 0x00FF00) | ((w.v & 0xFF0000) >> 16))
  }

  function Appended(w: Word, bit: bool): Word { Word((w.v << 1) | (if bit then 1 else 0)) }

  lemma MaskUp(i: nat)
    requires i < 8
    ensures Mask(i) & 0xFF == Mask(i)
    ensures Mask(i + 8) == Mask(i) << 8 && Mask(i + 16) == Mask(i) << 16
  {
    hide Mask;
    MaskValues();
  }

  lemma SwapMeets(w: Word, m: bv24)
    requires m & 0xFF == m
    ensures Meets(SwapOctets(w), m) == Meets(w, m << 16)
    ensures Meets(SwapOctets(w), m << 8) == Meets(w, m << 8)
    ensures Meets(SwapOctets(w), m << 16) == Meets(w, m)
  {
  }

  lemma SwapBit(w: Word, k: nat)
    requires k < 24
    ensures BitAt(SwapOctets(w), k) == BitAt(w, 16 - 8 * (k / 8) + k % 8)
  {
    hide SwapOctets, Meets, Mask;
    MaskUp(k % 8);
    SwapMeets(w, Mask(k % 8));
    assert k == 8 * (k / 8) + k % 8 && (k / 8 == 0 || k / 8 == 1 || k / 8 == 2);
  }

  lemma AppendMeets(w: Word, bit: bool, m: bv24)
    ensures Meets(Appended(w, bit), 1) == bit
    ensures m & 0x800000 == 0 ==> Meets(Appended(w, bit), m << 1) == Meets(w, m)
  {
    if bit {
    } else {
    }
  }

  lemma BelowTop(i: nat)
    requires i < 23
    ensures Mask(i) & 0x800000 == 0 && Mask(i + 1) == Mask(i) << 1
  {
    hide Mask;
    MaskValues();
  }

  lemma AppendedBit(w: Word, bit: bool, i: nat)
    requires i < 24
    ensures BitAt(Appended(w, bit), i) == if i == 0 then bit else BitAt(w, i - 1)
  {
    hide Appended, Meets, Mask;
    if i == 0 {
      LowestMask();
      AppendMeets(w, bit, 1);
    } else {
      BelowTop(i - 1);
      AppendMeets(w, bit, Mask(i - 1));
    }
  }

  /** `n` bits from the low end of `input` onto the low end of `out`. */
  function Moved(input: Word, out: Word, n: nat): Word
    decreases n
  {
    if n == 0 then out else Moved(Half(input), Appended(out, BitAt(input, 0)), n - 1)
  }

  /** crc_init_reorder: swap the octets, then reverse the bits. */
  function Reordered(init: Word): Word { Moved(SwapOctets(init), ZERO, 24) }

  /** The first `n` stages are in `out`, the others still in `input`. */
  predicate HalfMoved(stages: seq<bool>, input: Word, out: Word, n: nat)
    requires |stages| == 24 && n <= 24
  {
    && (forall k :: 0 <= k < n ==> BitAt(out, n - 1 - k) == stages[k])
    && (forall j :: 0 <= j < 24 - n ==> BitAt(input, j) == stages[n + j])
  }

  lemma MovesOne(stages: seq<bool>, input: Word, out: Word, n: nat)
    requires |stages| == 24 && n < 24 && HalfMoved(stages, input, out, n)
    ensures HalfMoved(stages, Half(input), Appended(out, BitAt(input, 0)), n + 1)
  {
    hide BitAt, Half, Appended;
    assert BitAt(input, 0) == stages[n + 0];
    forall k | 0 <= k < n + 1
      ensures BitAt(Appended(out, BitAt(input, 0)), n - k) == stages[k]
    {
      AppendedBit(out, BitAt(input, 0), n - k);
      assert k < n ==> BitAt(out, n - 1 - k) == stages[k];
    }
    forall j | 0 <= j < 23 - n
      ensures BitAt(Half(input), j) == stages[n + 1 + j]
    {
      HalfBit(input, j);
      assert BitAt(input, j + 1) == stages[n + (j + 1)];
    }
  }

  lemma {:induction false} MovesAll(stages: seq<bool>, input: Word, out: Word, n: nat)
    requires |stages| == 24 && n <= 24 && HalfMoved(stages, input, out, n)
    ensures Shows(Moved(input, out, 24 - n), stages)
    decreases 24 - n
  {
    hide BitAt, Half, Appended;
    if n == 24 {
      forall i | 0 <= i < 24
        ensures BitAt(out, i) == stages[23 - i]
      {
        assert BitAt(out, 24 - 1 - (23 - i)) == stages[23 - i];
      }
    } else {
      MovesOne(stages, input, out, n);
      MovesAll(stages, Half(input), Appended(out, BitAt(input, 0)), n + 1);
    }
  }

  /** The reordered preset is the mirror image of the transmitter's preset stages. */
  lemma ReorderedShows(init: Word)
    ensures Shows(Reordered(init), PresetStages(init))
  {
    hide BitAt, SwapOctets, Shows, Moved;
    forall k | 0 <= k < 24
      ensures BitAt(SwapOctets(init), k) == PresetStages(init)[k]
    {
      SwapBit(init, k);
    }
    MovesAll(PresetStages(init), SwapOctets(init), ZERO, 0);
  }

  method CrcInitReorder(init: Word) returns (out: Word)
    ensures out == Reordered(init)
    ensures Shows(out, PresetStages(init))
  {
    hide BitAt, Half, Appended, SwapOctets;
    var input := SwapOctets(init);
    out := ZERO;
    for n := 0 to 24
      invariant Moved(input, out, 24 - n) == Reordered(init)
    {
      out := Appended(out, BitAt(input, 0));
      input := Half(input);
    }
    ReorderedShows(init);
  }

  // ----- the transmitter's crc24 and the receiver's

  /** The bits of a word from the lowest up. */
  function WordBits(w: Word): (r: seq<bool>)
    ensures |r| == 24
  {
    seq(24, i requires 0 <= i < 24 => BitAt(w, i))
  }

  function Reversed(bs: seq<bool>): (r: seq<bool>)
    requires |bs| == 24
    ensures |r| == 24
  {
    seq(24, i requires 0 <= i < 24 => bs[23 - i])
  }

  method LoadPreset(bs: array<bool>, init: Word)
    requires bs.Length == 24
    modifies bs
    ensures bs[..] == PresetStages(init)
  {
    hide BitAt;
    for i := 0 to 3
      invariant forall k :: 0 <= k < 8 * i ==> bs[k] == PresetStages(init)[k]
    {
      for b := 0 to 8
        invariant forall k :: 0 <= k < 8 * i + b ==> bs[k] == PresetStages(init)[k]
      {
        assert (8 * i + b) / 8 == i && (8 * i + b) % 8 == b;
        bs[8 * i + b] := BitAt(init, (2 - i) * 8 + b);
      }
    }
  }

  method StepStages(bs: array<bool>, bit: bool)
    requires bs.Length == 24
    modifies bs
    ensures bs[..] == Next(old(bs[..]), bit)
  {
    ghost var before := bs[..];
    var nb := bs[23] != bit;
    var u := [nb, bs[0] != nb, bs[1], bs[2] != nb, bs[3] != nb, bs[4], bs[5] != nb, bs[6], bs[7], bs[8] != nb, bs[9] != nb];
    for k := 11 to 24
      invariant |u| == k && forall j :: 0 <= j < k ==> u[j] == NextStage(before, bit, j)
    {
      u := u + [bs[k - 1]];
    }
    forall k | 0 <= k < 24 {
      bs[k] := u[k];
    }
  }

  /** crc24 of the transmitter: the preset, one step per bit, and the stages read out from the last
      one down. */
  method SerialCrc(pduBits: seq<bool>, init: Word) returns (result: seq<bool>)
    ensures result == Reversed(Serial(PresetStages(init), pduBits))
  {
    hide Next, PresetStages;
    var bs := new bool[24];
    LoadPreset(bs, init);
    for i := 0 to |pduBits|
      invariant bs[..] == Serial(PresetStages(init), pduBits[..i])
    {
      SerialPush(PresetStages(init), pduBits, i);
      StepStages(bs, pduBits[i]);
    }
    assert pduBits[..|pduBits|] == pduBits;
    result := [];
    for i := 0 to 24
      invariant |result| == i && forall k :: 0 <= k < i ==> result[k] == bs[23 - k]
    {
      result := result + [bs[23 - i]];
    }
  }

  method TableCrc(data: seq<byte>, init: Word) returns (crc: Word)
    ensures crc == TableRun(init, data)
  {
    hide TableStep;
    crc := init;
    for i := 0 to |data|
      invariant crc == TableRun(init, data[..i])
    {
      assert data[..i + 1][..i] == data[..i];
      crc := TableStep(crc, data[i]);
    }
    assert data[..|data|] == data;
  }

  /** Both ends compute the same 24 bits: the transmitter's result, in the order it is sent, is the
      receiver's word read from the lowest bit up. */
  lemma BothEndsAgree(w: Word, bs: seq<bool>, data: seq<byte>)
    requires Shows(w, bs)
    ensures Reversed(Serial(bs, AllLsbBits(data))) == WordBits(TableRun(w, data))
  {
    hide BitAt, TableRun, Serial;
    TableRefinesRegister(w, bs, data);
  }
}
