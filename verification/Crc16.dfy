/** The bit-at-a-time CRC engine of src/dsp/protocol.hpp at width 16 with polynomial 0x1021,
    and the two ways the AX.25 and AIS code spell the X-25 frame check sequence with it. */
module Crc16 {
  import opened Bits

  const POLYNOMIAL: bv16 := 0x1021
  const INITIAL: bv16 := 0xFFFF
  const FINAL_XOR: bv16 := 0xFFFF
  /** What the register holds after any data followed by its own check sequence. */
  const RESIDUE: bv16 := 0x1D0F

  /** One polynomial-division step. */
  function Step(r: bv16, bit: bool): bv16 {
    var x := r ^ (if bit then 0x8000 else 0);
    (x << 1) ^ (if x & 0x8000 != 0 then POLYNOMIAL else 0)
  }

  function Run(r: bv16, bits: seq<bool>): bv16
  {
    if bits == [] then r else Step(Run(r, bits[..|bits| - 1]), bits[|bits| - 1])
  }

  function Reflect(x: bv16): bv16 {
    ((x & 0x0001) << 15) | ((x & 0x0002) << 13) | ((x & 0x0004) << 11) | ((x & 0x0008) << 9) |
    ((x & 0x0010) << 7)  | ((x & 0x0020) << 5)  | ((x & 0x0040) << 3)  | ((x & 0x0080) << 1) |
    ((x & 0x0100) >> 1)  | ((x & 0x0200) >> 3)  | ((x & 0x0400) >> 5)  | ((x & 0x0800) >> 7) |
    ((x & 0x1000) >> 9)  | ((x & 0x2000) >> 11) | ((x & 0x4000) >> 13) | ((x & 0x8000) >> 15)
  }

  function LowByte(x: bv16): byte { (x & 0xFF) as bv8 }

  function HighByte(x: bv16): byte { (x >> 8) as bv8 }

  /** CRC-16/X-25 over a list of octets. */
  function Fcs(data: seq<byte>): bv16 {
    Reflect(Run(INITIAL, AllLsbBits(data))) ^ FINAL_XOR
  }

  /** A frame followed by its check sequence, low octet first. */
  function WithFcs(data: seq<byte>): seq<byte> {
    data + [LowByte(Fcs(data)), HighByte(Fcs(data))]
  }

  /** The receiver's test: the register over data and check sequence equals the residue. */
  predicate FrameValid(frame: seq<byte>) {
    |frame| >= 2 && Run(INITIAL, AllLsbBits(frame)) == RESIDUE
  }

  // ----- facts about runs of the engine

  lemma {:induction false} RunAppend(r: bv16, a: seq<bool>, b: seq<bool>)
    ensures Run(r, a + b) == Run(Run(r, a), b)
    decreases |b|
  {
    if b == [] {
      assert a + b == a;
    } else {
      var n := |b| - 1;
      assert (a + b)[..|a| + n] == a + b[..n];
      RunAppend(r, a, b[..n]);
    }
  }

  function ByteStep(r: bv16, b: byte): bv16 {
    Step(Step(Step(Step(Step(Step(Step(Step(r, b & 0x01 != 0), b & 0x02 != 0), b & 0x04 != 0), b & 0x08 != 0),
                    b & 0x10 != 0), b & 0x20 != 0), b & 0x40 != 0), b & 0x80 != 0)
  }

  lemma RunPush(r: bv16, a: seq<bool>, bit: bool)
    ensures Run(r, a + [bit]) == Step(Run(r, a), bit)
  {
    assert (a + [bit])[..|a|] == a;
  }

  lemma RunNext(r: bv16, s: seq<bool>, k: nat)
    requires k < |s|
    ensures Run(r, s[..k + 1]) == Step(Run(r, s[..k]), s[k])
  {
    hide Step, Run;
    assert s[..k + 1] == s[..k] + [s[k]];
    RunPush(r, s[..k], s[k]);
  }

  lemma RunEight(r: bv16, s: seq<bool>)
    requires |s| == 8
    ensures Run(r, s) == Step(Step(Step(Step(Step(Step(Step(Step(r, s[0]), s[1]), s[2]), s[3]), s[4]), s[5]), s[6]), s[7])
  {
    hide Step, Run;
    RunNothing(r);
    assert s[..0] == [] && s[..8] == s;
    RunNext(r, s, 0);
    RunNext(r, s, 1);
    RunNext(r, s, 2);
    RunNext(r, s, 3);
    RunNext(r, s, 4);
    RunNext(r, s, 5);
    RunNext(r, s, 6);
    RunNext(r, s, 7);
  }

  lemma RunByte(r: bv16, b: byte)
    ensures Run(r, LsbBits(b)) == ByteStep(r, b)
  {
    hide Step, Run;
    RunEight(r, LsbBits(b));
  }

  lemma RunNothing(r: bv16)
    ensures Run(r, []) == r
  {
  }

  lemma RunBytesPush(r: bv16, data: seq<byte>, b: byte)
    ensures Run(r, AllLsbBits(data + [b])) == ByteStep(Run(r, AllLsbBits(data)), b)
  {
    assert (data + [b])[..|data|] == data;
    RunAppend(r, AllLsbBits(data), LsbBits(b));
    RunByte(Run(r, AllLsbBits(data)), b);
  }

  /** Feeding a register's own complemented contents back, most significant bit first, always
      feeds back a one, so what is left depends on the polynomial alone. */
  lemma ResidueStep(r: bv16)
    ensures var f := Reflect(r) ^ FINAL_XOR; ByteStep(ByteStep(r, LowByte(f)), HighByte(f)) == RESIDUE
  {
  }

  /** Any data followed by its own check sequence leaves the constant residue. */
  lemma OwnFcsIsValid(data: seq<byte>)
    ensures FrameValid(WithFcs(data))
  {
    hide Run, Reflect, LowByte, HighByte, ByteStep, AllLsbBits;
    var r := Run(INITIAL, AllLsbBits(data));
    var f := Fcs(data);
    RunBytesPush(INITIAL, data, LowByte(f));
    RunBytesPush(INITIAL, data + [LowByte(f)], HighByte(f));
    assert WithFcs(data) == data + [LowByte(f)] + [HighByte(f)];
    ResidueStep(r);
  }

  // ----- the published check value

  /** The first digits, as characters. */
  function DigitsUpTo(n: nat): seq<byte>
    requires n <= 9
  {
    [0x31, 0x32, 0x33, 0x34, 0x35, 0x36, 0x37, 0x38, 0x39][..n]
  }

  /** The register behind each of them. */
  const AFTER_DIGITS: seq<bv16> := [0xFFFF, 0xB1F4, 0xCAB2, 0xD2C6, 0xC8D1, 0xFD22, 0xB198, 0x1358, 0xA9EF, 0x89F6]

  lemma DigitStep(n: nat)
    requires n < 9
    ensures ByteStep(AFTER_DIGITS[n], DigitsUpTo(9)[n]) == AFTER_DIGITS[n + 1]
  {
    if n == 0 {} else if n == 1 {} else if n == 2 {} else if n == 3 {} else if n == 4 {} else if n == 5 {} else
    if n == 6 {} else if n == 7 {} else {}
  }

  lemma {:induction false} DigitsRun(n: nat)
    requires n <= 9
    ensures Run(0xFFFF, AllLsbBits(DigitsUpTo(n))) == AFTER_DIGITS[n]
    decreases n
  {
    hide ByteStep, AllLsbBits;
    if n == 0 {
      NoBits();
    } else {
      DigitsRun(n - 1);
      DigitStep(n - 1);
      assert DigitsUpTo(n) == DigitsUpTo(n - 1) + [DigitsUpTo(9)[n - 1]];
      RunBytesPush(0xFFFF, DigitsUpTo(n - 1), DigitsUpTo(9)[n - 1]);
    }
  }

  lemma NoBits()
    ensures AllLsbBits([]) == []
  {
  }

  /** The published check value of CRC-16/X-25, the one over the digits 1 to 9. */
  lemma PublishedCheck()
    ensures Fcs([0x31, 0x32, 0x33, 0x34, 0x35, 0x36, 0x37, 0x38, 0x39]) == 0x906E
  {
    hide ByteStep, AllLsbBits, Run;
    DigitsRun(9);
    assert DigitsUpTo(9) == [0x31, 0x32, 0x33, 0x34, 0x35, 0x36, 0x37, 0x38, 0x39];
  }

  // ----- what the preset does

  /** The register, by name. */
  datatype Register = Register(v: bv16)

  function Plus(r: Register, s: Register): Register { Register(r.v ^ s.v) }

  function Top(bit: bool): Register { if bit then Register(0x8000) else Register(0) }

  function Divided(x: Register): Register { Register((x.v << 1) ^ (if x.v & 0x8000 != 0 then POLYNOMIAL else 0)) }

  function After(r: Register, bits: seq<bool>): Register { Register(Run(r.v, bits)) }

  function Stepped(r: Register, bit: bool): Register { Register(Step(r.v, bit)) }

  lemma StepIs(r: Register, bit: bool)
    ensures Stepped(r, bit) == Divided(Plus(r, Top(bit)))
  {
    if bit {} else {}
  }

  lemma TopLinear(a: bool, b: bool)
    ensures Top(a != b) == Plus(Top(a), Top(b))
  {
  }

  lemma Regroup(a: Register, b: Register, c: Register, d: Register)
    ensures Plus(Plus(a, b), Plus(c, d)) == Plus(Plus(a, c), Plus(b, d))
  {
  }

  lemma DividedLinear(x: Register, y: Register)
    ensures Divided(Plus(x, y)) == Plus(Divided(x), Divided(y))
  {
  }

  /** The bits where two stretches differ. */
  function Mixed(a: seq<bool>, b: seq<bool>): (r: seq<bool>)
    requires |a| == |b|
    ensures |r| == |a|
  {
    seq(|a|, i requires 0 <= i < |a| => a[i] != b[i])
  }

  lemma AfterNothing(r: Register)
    ensures After(r, []) == r
  {
  }

  lemma AfterOne(r: Register, bits: seq<bool>, bit: bool)
    requires bits != [] && bits[|bits| - 1] == bit
    ensures After(r, bits) == Divided(Plus(After(r, bits[..|bits| - 1]), Top(bit)))
  {
    hide Step, Plus, Top, Divided;
    assert After(r, bits) == Stepped(After(r, bits[..|bits| - 1]), bit);
    StepIs(After(r, bits[..|bits| - 1]), bit);
  }

  lemma {:induction false} RunLinear(r: Register, s: Register, a: seq<bool>, b: seq<bool>)
    requires |a| == |b|
    ensures After(Plus(r, s), Mixed(a, b)) == Plus(After(r, a), After(s, b))
    decreases |a|
  {
    hide After, Plus, Top, Divided;
    if a == [] {
      AfterNothing(r);
      AfterNothing(s);
      AfterNothing(Plus(r, s));
    } else {
      var n := |a| - 1;
      var m := Mixed(a, b);
      assert m[..n] == Mixed(a[..n], b[..n]);
      RunLinear(r, s, a[..n], b[..n]);
      AfterOne(r, a, a[n]);
      AfterOne(s, b, b[n]);
      AfterOne(Plus(r, s), m, m[n]);
      TopLinear(a[n], b[n]);
      Regroup(After(r, a[..n]), After(s, b[..n]), Top(a[n]), Top(b[n]));
      DividedLinear(Plus(After(r, a[..n]), Top(a[n])), Plus(After(s, b[..n]), Top(b[n])));
    }
  }

  function Trues(n: nat): (r: seq<bool>)
    ensures |r| == n
  {
    seq(n, _ => true)
  }

  /** The places from the first to the sixteenth that ones have not reached yet. */
  function OnesLeft(n: nat): bv16 {
    if n == 0 then 0xFFFF else OnesLeft(n - 1) << 1
  }

  lemma {:induction false} OnesCancel(n: nat)
    requires n <= 16
    ensures Run(0xFFFF, Trues(n)) == OnesLeft(n)
  {
    if n > 0 {
      OnesCancel(n - 1);
      assert Trues(n)[..n - 1] == Trues(n - 1);
      TopIsLeft(n - 1);
    }
  }

  lemma TopIsLeft(n: nat)
    requires n < 16
    ensures OnesLeft(n) & 0x8000 == 0x8000
  {
    LeftAt8();
    if n < 8 {
      assert OnesLeft(2) == 0xFFFC && OnesLeft(4) == 0xFFF0 && OnesLeft(6) == 0xFFC0;
      if n < 2 {} else if n < 4 {} else if n < 6 {} else {}
    } else {
      assert OnesLeft(10) == 0xFC00 && OnesLeft(12) == 0xF000 && OnesLeft(14) == 0xC000;
      if n < 10 {} else if n < 12 {} else if n < 14 {} else {}
    }
  }

  lemma LeftAt8()
    ensures OnesLeft(8) == 0xFF00 && OnesLeft(16) == 0
  {
    assert OnesLeft(2) == 0xFFFC && OnesLeft(4) == 0xFFF0 && OnesLeft(6) == 0xFFC0;
    assert OnesLeft(8) == 0xFF00;
    assert OnesLeft(10) == 0xFC00 && OnesLeft(12) == 0xF000 && OnesLeft(14) == 0xC000;
  }

  /** A stretch with its first sixteen bits complemented. */
  function FirstComplemented(bits: seq<bool>): (r: seq<bool>)
    ensures |r| == |bits|
  {
    seq(|bits|, i requires 0 <= i < |bits| => if i < 16 then !bits[i] else bits[i])
  }

  /** A register preset to ones is a plain division of the message with its first sixteen bits complemented. */
  lemma PresetComplements(bits: seq<bool>)
    requires |bits| >= 16
    ensures Run(0xFFFF, bits) == Run(0, FirstComplemented(bits))
  {
    hide Run, OnesLeft, Plus;
    var a, b := bits[..16], bits[16..];
    var c := FirstComplemented(bits);
    assert Mixed(a, c[..16]) == Trues(16);
    RunLinear(Register(0xFFFF), Register(0), a, c[..16]);
    PlusZero(Register(0xFFFF));
    OnesCancel(16);
    LeftAt8();
    SameWhenMixedAway(After(Register(0xFFFF), a), After(Register(0), c[..16]));
    assert bits == a + b && c == c[..16] + b;
    RunAppend(0xFFFF, a, b);
    RunAppend(0, c[..16], b);
  }

  lemma SameWhenMixedAway(r: Register, s: Register)
    requires Plus(r, s) == Register(0)
    ensures r == s
  {
  }

  lemma PlusZero(r: Register)
    ensures Plus(r, Register(0)) == r
  {
  }

  lemma {:induction false} OctetBits(data: seq<byte>)
    ensures |AllLsbBits(data)| == 8 * |data|
    decreases |data|
  {
    if data != [] {
      OctetBits(data[..|data| - 1]);
    }
  }

  /** The check sequence, without a preset: what is left of dividing the message by the polynomial, once its first sixteen
      bits are complemented, reflected and complemented. */
  lemma FcsIsPlainDivision(data: seq<byte>)
    requires |data| >= 2
    ensures Fcs(data) == Reflect(Run(0, FirstComplemented(AllLsbBits(data)))) ^ 0xFFFF
  {
    hide Run, Reflect;
    OctetBits(data);
    PresetComplements(AllLsbBits(data));
  }

  /** The division loses nothing. */
  lemma DividedInjective(x: Register, y: Register)
    requires Divided(x) == Divided(y)
    ensures x == y
  {
    if x.v & 0x8000 != 0 {
      if y.v & 0x8000 != 0 {} else {}
    } else {
      if y.v & 0x8000 != 0 {} else {}
    }
  }

  lemma PlusInjective(r: Register, s: Register, x: Register)
    requires Plus(r, x) == Plus(s, x)
    ensures r == s
  {
  }

  lemma {:induction false} RunInjective(r: Register, s: Register, bits: seq<bool>)
    requires After(r, bits) == After(s, bits)
    ensures r == s
    decreases |bits|
  {
    hide After, Plus, Top, Divided;
    if bits == [] {
      AfterNothing(r);
      AfterNothing(s);
    } else {
      var n := |bits| - 1;
      AfterOne(r, bits, bits[n]);
      AfterOne(s, bits, bits[n]);
      DividedInjective(Plus(After(r, bits[..n]), Top(bits[n])), Plus(After(s, bits[..n]), Top(bits[n])));
      PlusInjective(After(r, bits[..n]), After(s, bits[..n]), Top(bits[n]));
      RunInjective(r, s, bits[..n]);
    }
  }

  lemma {:induction false} BitsOfFront(b: byte, data: seq<byte>)
    ensures AllLsbBits([b] + data) == LsbBits(b) + AllLsbBits(data)
    decreases |data|
  {
    hide LsbBits;
    if data == [] {
      assert [b] + data == [b];
    } else {
      var n := |data| - 1;
      assert ([b] + data)[..n + 1] == [b] + data[..n];
      BitsOfFront(b, data[..n]);
    }
  }

  lemma ZeroOctetMoves()
    ensures ByteStep(0xFFFF, 0) != 0xFFFF
  {
  }

  /** A zero octet in front moves the register, whatever follows. */
  lemma ZeroInFrontMoves(data: seq<byte>)
    ensures Run(0xFFFF, AllLsbBits([0] + data)) != Run(0xFFFF, AllLsbBits(data))
  {
    hide Run, LsbBits, AllLsbBits, ByteStep;
    BitsOfFront(0, data);
    RunAppend(0xFFFF, LsbBits(0), AllLsbBits(data));
    RunByte(0xFFFF, 0);
    ZeroOctetMoves();
    if Run(0xFFFF, AllLsbBits([0] + data)) == Run(0xFFFF, AllLsbBits(data)) {
      RunInjective(Register(Run(0xFFFF, LsbBits(0))), Register(0xFFFF), AllLsbBits(data));
      assert false;
    }
  }

  lemma ReflectInjective(x: bv16, y: bv16)
    requires Reflect(x) ^ 0xFFFF == Reflect(y) ^ 0xFFFF
    ensures x == y
  {
  }

  /** A zero octet put in front or dropped there is always seen: it changes the check sequence, and of a frame with it and
      the frame without it at most one is taken. */
  lemma ZeroInFrontIsSeen(data: seq<byte>)
    ensures Fcs([0] + data) != Fcs(data)
    ensures !(FrameValid([0] + data) && FrameValid(data))
  {
    hide Run, Reflect, AllLsbBits;
    ZeroInFrontMoves(data);
    if Fcs([0] + data) == Fcs(data) {
      ReflectInjective(Run(0xFFFF, AllLsbBits([0] + data)), Run(0xFFFF, AllLsbBits(data)));
      assert false;
    }
  }

  // ----- what the check sees

  function Up(r: Register): Register { Register(r.v << 1) }

  function Ups(r: Register, n: nat): Register { if n == 0 then r else Up(Ups(r, n - 1)) }

  predicate IsTop(r: Register) { r.v & 0x8000 != 0 }

  /** The bits that leave a register, first to last. */
  function Tops(r: Register, n: nat): (b: seq<bool>)
    ensures |b| == n
  {
    seq(n, i requires 0 <= i < n => IsTop(Ups(r, i)))
  }

  lemma TopCancels(r: Register)
    ensures Divided(Plus(r, Top(IsTop(r)))) == Up(r)
  {
    if IsTop(r) {} else {}
  }

  /** Fed the bits that leave it, a register only shifts. */
  lemma {:induction false} ShiftsOut(r: Register, n: nat)
    ensures After(r, Tops(r, n)) == Ups(r, n)
  {
    hide After, Divided, Plus, Top, Up, IsTop;
    if n == 0 {
      AfterNothing(r);
    } else {
      ShiftsOut(r, n - 1);
      assert Tops(r, n)[..n - 1] == Tops(r, n - 1);
      AfterOne(r, Tops(r, n), IsTop(Ups(r, n - 1)));
      TopCancels(Ups(r, n - 1));
    }
  }

  function In(r: Register, bit: bool): Register { Register((r.v << 1) | (if bit then 1 else 0)) }

  function EightIn(r: Register, w: seq<bool>): Register
    requires |w| == 8
  {
    In(In(In(In(In(In(In(In(r, w[0]), w[1]), w[2]), w[3]), w[4]), w[5]), w[6]), w[7])
  }

  function Sixteen(w: seq<bool>): Register
    requires |w| == 16
  {
    EightIn(EightIn(Register(0), w[..8]), w[8..])
  }

  lemma EightOut(r: Register, a: bool, b: bool, c: bool, d: bool, e: bool, f: bool, g: bool, h: bool)
    ensures var x := In(In(In(In(In(In(In(In(r, a), b), c), d), e), f), g), h);
            && Low(x) == [a, b, c, d, e, f, g, h] && High(x) == Low(r)
  {
  }

  lemma EightBack(r: Register, w: seq<bool>)
    requires |w| == 8
    ensures Low(EightIn(r, w)) == w && High(EightIn(r, w)) == Low(r)
  {
    hide In, Low, High;
    SpeltOut(w);
    EightOut(r, w[0], w[1], w[2], w[3], w[4], w[5], w[6], w[7]);
  }

  lemma SpeltOut<T>(w: seq<T>)
    requires |w| == 8
    ensures w == [w[0], w[1], w[2], w[3], w[4], w[5], w[6], w[7]]
  {
  }

  /** The low and the high octet, most significant bit first. */
  function Low(r: Register): seq<bool> {
    [r.v & 0x80 != 0, r.v & 0x40 != 0, r.v & 0x20 != 0, r.v & 0x10 != 0, r.v & 0x08 != 0, r.v & 0x04 != 0, r.v & 0x02 != 0, r.v & 0x01 != 0]
  }

  function High(r: Register): seq<bool> {
    [r.v & 0x8000 != 0, r.v & 0x4000 != 0, r.v & 0x2000 != 0, r.v & 0x1000 != 0, r.v & 0x0800 != 0, r.v & 0x0400 != 0, r.v & 0x0200 != 0,
     r.v & 0x0100 != 0]
  }

  lemma HighLeaves(r: Register)
    ensures High(r) == [IsTop(r), IsTop(Up(r)), IsTop(Up(Up(r))), IsTop(Up(Up(Up(r)))), IsTop(Up(Up(Up(Up(r))))),
                        IsTop(Up(Up(Up(Up(Up(r)))))), IsTop(Up(Up(Up(Up(Up(Up(r))))))), IsTop(Up(Up(Up(Up(Up(Up(Up(r))))))))]
  {
  }

  lemma EightUp(r: Register)
    ensures High(Up(Up(Up(Up(Up(Up(Up(Up(r))))))))) == Low(r)
    ensures Low(Up(Up(Up(Up(Up(Up(Up(Up(r))))))))) == [false, false, false, false, false, false, false, false]
  {
  }

  lemma NothingIsZero(r: Register)
    requires High(r) == [false, false, false, false, false, false, false, false] && Low(r) == High(r)
    ensures r == Register(0)
  {
    assert !High(r)[0] && !High(r)[1] && !High(r)[2] && !High(r)[3] && !High(r)[4] && !High(r)[5] && !High(r)[6] && !High(r)[7];
    assert !Low(r)[0] && !Low(r)[1] && !Low(r)[2] && !Low(r)[3] && !Low(r)[4] && !Low(r)[5] && !Low(r)[6] && !Low(r)[7];
  }

  lemma UpsUnrolled(r: Register)
    ensures Ups(r, 0) == r && Ups(r, 1) == Up(r) && Ups(r, 2) == Up(Up(r)) && Ups(r, 3) == Up(Up(Up(r)))
    ensures Ups(r, 4) == Up(Up(Up(Up(r)))) && Ups(r, 5) == Up(Up(Up(Up(Up(r))))) && Ups(r, 6) == Up(Up(Up(Up(Up(Up(r))))))
    ensures Ups(r, 7) == Up(Up(Up(Up(Up(Up(Up(r))))))) && Ups(r, 8) == Up(Up(Up(Up(Up(Up(Up(Up(r))))))))
  {
    hide Up;
  }

  lemma {:induction false} UpsAdd(r: Register, m: nat, n: nat)
    ensures Ups(Ups(r, m), n) == Ups(r, m + n)
  {
    hide Up;
    if n > 0 {
      UpsAdd(r, m, n - 1);
    }
  }

  /** What leaves a register is its high octet and then its low one. */
  lemma TopsByHalves(r: Register)
    ensures Tops(r, 16) == High(r) + Low(r) && Ups(r, 16) == Register(0)
  {
    hide Up, IsTop, Ups;
    var t, h, l := Tops(r, 16), High(r), Low(r);
    EachTop(r, t, h, l);
    AllLeaves(r);
  }

  lemma EachTop(r: Register, t: seq<bool>, h: seq<bool>, l: seq<bool>)
    requires t == Tops(r, 16) && h == High(r) && l == Low(r) && |h| == 8 && |l| == 8
    ensures t == h + l
  {
    hide Up, IsTop, Low, High, Ups;
    forall i: nat | i < 16
      ensures t[i] == (h + l)[i]
    {
      if i < 8 {
        TopOfHigh(r, i);
      } else {
        TopOfLow(r, i - 8);
      }
    }
  }

  lemma TopOfHigh(r: Register, i: nat)
    requires i < 8
    ensures IsTop(Ups(r, i)) == High(r)[i]
  {
    hide Up, IsTop, Low, High;
    UpsUnrolled(r);
    HighLeaves(r);
    TopAt(r, High(r), i);
  }

  lemma TopOfLow(r: Register, i: nat)
    requires i < 8
    ensures IsTop(Ups(r, 8 + i)) == Low(r)[i]
  {
    hide Up, IsTop, Low, High, Ups;
    UpsUnrolled(r);
    EightUp(r);
    TopOfHigh(Ups(r, 8), i);
    UpsAdd(r, 8, i);
  }

  lemma AllLeaves(r: Register)
    ensures Ups(r, 16) == Register(0)
  {
    hide Up, IsTop, Low, High, Ups;
    var u := Ups(r, 8);
    UpsUnrolled(r);
    EightUp(r);
    UpsAdd(r, 8, 8);
    UpsUnrolled(u);
    EightUp(u);
    NothingIsZero(Ups(u, 8));
  }

  lemma SixteenHalves(w: seq<bool>)
    requires |w| == 16
    ensures High(Sixteen(w)) + Low(Sixteen(w)) == w
  {
    hide EightIn, Low, High;
    EightBack(Register(0), w[..8]);
    EightBack(EightIn(Register(0), w[..8]), w[8..]);
    assert w[..8] + w[8..] == w;
  }

  /** The sixteen bits put in come out. */
  lemma TopsOfSixteen(w: seq<bool>)
    requires |w| == 16
    ensures Tops(Sixteen(w), 16) == w && Ups(Sixteen(w), 16) == Register(0)
  {
    hide Sixteen, Low, High;
    SixteenHalves(w);
    TopsByHalves(Sixteen(w));
  }

  lemma TopAt(r: Register, high: seq<bool>, i: nat)
    requires i < 8 && high == [IsTop(r), IsTop(Up(r)), IsTop(Up(Up(r))), IsTop(Up(Up(Up(r)))), IsTop(Up(Up(Up(Up(r))))),
                               IsTop(Up(Up(Up(Up(Up(r)))))), IsTop(Up(Up(Up(Up(Up(Up(r))))))), IsTop(Up(Up(Up(Up(Up(Up(Up(r))))))))]
    ensures high[i] == IsTop(Ups(r, i))
  {
    hide Up, IsTop;
    UpsUnrolled(r);
    if i == 0 {} else if i == 1 {} else if i == 2 {} else if i == 3 {} else if i == 4 {} else if i == 5 {} else if i == 6 {} else {}
  }

  function Falses(n: nat): (r: seq<bool>)
    ensures |r| == n
  {
    seq(n, _ => false)
  }

  lemma ZeroDivides()
    ensures Divided(Plus(Register(0), Top(false))) == Register(0)
  {
  }

  lemma {:induction false} NothingLeft(n: nat)
    ensures After(Register(0), Falses(n)) == Register(0)
  {
    hide After, Divided, Plus, Top;
    if n == 0 {
      AfterNothing(Register(0));
    } else {
      NothingLeft(n - 1);
      assert Falses(n)[..n - 1] == Falses(n - 1);
      AfterOne(Register(0), Falses(n), false);
      ZeroDivides();
    }
  }

  /** No sixteen bits divide but zeros. */
  lemma SixteenDoNotDivide(w: seq<bool>)
    requires |w| == 16 && After(Register(0), w) == Register(0)
    ensures w == Falses(16)
  {
    hide After, Plus, In, Ups, IsTop, Sixteen;
    var r := Sixteen(w);
    TopsOfSixteen(w);
    ShiftsOut(r, 16);
    RunLinear(r, Register(0), w, w);
    PlusZero(r);
    PlusZero(Register(0));
    assert Mixed(w, w) == Falses(16);
    NothingLeft(16);
    RunInjective(r, Register(0), Falses(16));
    TopsOfZero(16);
  }

  lemma {:induction false} UpsOfZero(n: nat)
    ensures Ups(Register(0), n) == Register(0)
  {
    if n > 0 {
      UpsOfZero(n - 1);
    }
  }

  lemma TopsOfZero(n: nat)
    ensures Tops(Register(0), n) == Falses(n)
  {
    forall i: nat | i < n
      ensures !IsTop(Ups(Register(0), i))
    {
      UpsOfZero(i);
    }
  }

  /** From one register, different sixteen bits leave different registers. */
  lemma SixteenTell(r: Register, a: seq<bool>, b: seq<bool>)
    requires |a| == 16 && |b| == 16 && After(r, a) == After(r, b)
    ensures a == b
  {
    hide After, Plus;
    RunLinear(r, r, a, b);
    SameCancels(r);
    SameCancels(After(r, a));
    SixteenDoNotDivide(Mixed(a, b));
    forall i: nat | i < 16
      ensures a[i] == b[i]
    {
      assert Mixed(a, b)[i] == Falses(16)[i];
    }
  }

  lemma SameCancels(r: Register)
    ensures Plus(r, r) == Register(0)
  {
  }

  /** Two bit lists that differ within sixteen bits in a row leave different registers. */
  lemma BurstTells(x: seq<bool>, a: seq<bool>, b: seq<bool>, y: seq<bool>)
    requires |a| == 16 && |b| == 16 && Run(0xFFFF, x + a + y) == Run(0xFFFF, x + b + y)
    ensures a == b
  {
    hide Run;
    RunAppend(0xFFFF, x + a, y);
    RunAppend(0xFFFF, x + b, y);
    RunAppend(0xFFFF, x, a);
    RunAppend(0xFFFF, x, b);
    RunInjective(Register(Run(0xFFFF, x + a)), Register(Run(0xFFFF, x + b)), y);
    SixteenTell(Register(Run(0xFFFF, x)), a, b);
  }

  /** Damage within sixteen bits in a row is always seen: of two frames that differ so, at most one is taken. */
  lemma BurstIsSeen(f: seq<byte>, g: seq<byte>, x: seq<bool>, a: seq<bool>, b: seq<bool>, y: seq<bool>)
    requires AllLsbBits(f) == x + a + y && AllLsbBits(g) == x + b + y && |a| == 16 && |b| == 16 && a != b
    ensures !(FrameValid(f) && FrameValid(g))
  {
    hide Run, AllLsbBits;
    if FrameValid(f) && FrameValid(g) {
      BurstTells(x, a, b, y);
      assert false;
    }
  }

  lemma OctetsTell(a: byte, b: byte)
    requires LsbBits(a) == LsbBits(b)
    ensures a == b
  {
    assert LsbBits(a)[0] == LsbBits(b)[0] && LsbBits(a)[1] == LsbBits(b)[1] && LsbBits(a)[2] == LsbBits(b)[2];
    assert LsbBits(a)[3] == LsbBits(b)[3] && LsbBits(a)[4] == LsbBits(b)[4] && LsbBits(a)[5] == LsbBits(b)[5];
    assert LsbBits(a)[6] == LsbBits(b)[6] && LsbBits(a)[7] == LsbBits(b)[7];
  }

  lemma TwoMoreOctets(front: seq<byte>, low: byte, high: byte)
    ensures AllLsbBits(front + [low, high]) == AllLsbBits(front) + (LsbBits(low) + LsbBits(high)) + []
  {
    hide LsbBits;
    var f := front + [low, high];
    assert f[..|f| - 1] == front + [low];
    assert (front + [low])[..|front|] == front;
  }

  /** A frame is taken exactly when it ends with its own check sequence, low octet first. */
  lemma ValidIff(frame: seq<byte>)
    ensures FrameValid(frame) <==> |frame| >= 2 && frame == WithFcs(frame[..|frame| - 2])
  {
    hide Run, AllLsbBits, LsbBits, LowByte, HighByte, Fcs;
    if |frame| >= 2 {
      var n := |frame| - 2;
      var front := frame[..n];
      var low, high := LowByte(Fcs(front)), HighByte(Fcs(front));
      OwnFcsIsValid(front);
      assert frame == front + [frame[n], frame[n + 1]];
      TwoMoreOctets(front, frame[n], frame[n + 1]);
      TwoMoreOctets(front, low, high);
      if FrameValid(frame) {
        var a, b := LsbBits(frame[n]) + LsbBits(frame[n + 1]), LsbBits(low) + LsbBits(high);
        BurstTells(AllLsbBits(front), a, b, []);
        assert a[..8] == LsbBits(frame[n]) && b[..8] == LsbBits(low) && a[8..] == LsbBits(frame[n + 1]) && b[8..] == LsbBits(high);
        OctetsTell(frame[n], low);
        OctetsTell(frame[n + 1], high);
      }
    }
  }

  // ----- the engine itself

  /** dsp::Crc<16, true, true>{0x1021, 0xFFFF, 0xFFFF}. */
  class Engine {
    var remainder: bv16

    constructor ()
      ensures remainder == INITIAL
    {
      remainder := INITIAL;
    }

    method Reset()
      modifies this
      ensures remainder == INITIAL
    {
      remainder := INITIAL;
    }

    method ProcessBit(bit: bool)
      modifies this
      ensures remainder == Step(old(remainder), bit)
    {
      var x := remainder;
      if bit {
        x := x ^ 0x8000;
      }
      var divide := x & 0x8000 != 0;
      x := x << 1;
      if divide {
        x := x ^ POLYNOMIAL;
      }
      remainder := x;
    }

    method ProcessByte(b: byte)
      modifies this
      ensures remainder == Run(old(remainder), LsbBits(b))
    {
      var wire := LsbBits(b);
      for i := 0 to 8
        invariant remainder == Run(old(remainder), wire[..i])
      {
        assert wire[..i + 1] == wire[..i] + [wire[i]];
        RunPush(old(remainder), wire[..i], wire[i]);
        ProcessBit(wire[i]);
      }
      assert wire[..8] == wire;
    }

    /** The same without reflecting the input. */
    method ProcessByteMsbFirst(b: byte)
      modifies this
      ensures remainder == Run(old(remainder), MsbBits(b))
    {
      var wire := MsbBits(b);
      for i := 0 to 8
        invariant remainder == Run(old(remainder), wire[..i])
      {
        assert wire[..i + 1] == wire[..i] + [wire[i]];
        RunPush(old(remainder), wire[..i], wire[i]);
        ProcessBit(wire[i]);
      }
      assert wire[..8] == wire;
    }

    method ProcessBytes(data: seq<byte>)
      modifies this
      ensures remainder == Run(old(remainder), AllLsbBits(data))
    {
      for i := 0 to |data|
        invariant remainder == Run(old(remainder), AllLsbBits(data[..i]))
      {
        assert data[..i + 1][..i] == data[..i];
        RunAppend(old(remainder), AllLsbBits(data[..i]), LsbBits(data[i]));
        ProcessByte(data[i]);
      }
      assert data[..|data|] == data;
    }

    /** The reflected register with the final complement. */
    function Checksum(): bv16
      reads this
    {
      Reflect(remainder) ^ FINAL_XOR
    }
  }
}
