/** The Mode S parity field (mode_s_crc and AdsbFrame::make_CRC / check_CRC in src/apps/ui_adsb_rx.cpp, on the bit-at-a-time
    engine of src/dsp/protocol.hpp at width 24): what a zero syndrome promises. */
module AdsbParity {
  import opened Bits

  const POLYNOMIAL: bv24 := 0xFFF409
  const LONG_DATA: nat := 11
  const SHORT_DATA: nat := 4

  /** The register. */
  datatype Word = Word(v: bv24)

  const ZERO := Word(0)

  function Plus(a: Word, b: Word): Word { Word(a.v ^ b.v) }

  /** A bit enters at the top. */
  function Top(bit: bool): Word { if bit then Word(0x800000) else ZERO }

  function Fed(w: Word, bit: bool): Word { Plus(w, Top(bit)) }

  function Divided(w: Word): Word { Word((w.v << 1) ^ (if w.v & 0x800000 != 0 then POLYNOMIAL else 0)) }

  /** One polynomial-division step. */
  function Step(w: Word, bit: bool): Word { Divided(Fed(w, bit)) }

  function Run(w: Word, bits: seq<bool>): Word {
    if bits == [] then w else Step(Run(w, bits[..|bits| - 1]), bits[|bits| - 1])
  }

  /** mode_s_crc. */
  function Crc(data: seq<byte>): Word { Run(ZERO, AllMsbBits(data)) }

  // ----- the parity field

  predicate IsLong(f: seq<byte>)
    requires f != []
  {
    f[0] & 0x80 != 0
  }

  /** Octets in front of the parity field. */
  function DataLength(f: seq<byte>): (n: nat)
    requires f != []
  {
    if IsLong(f) then LONG_DATA else SHORT_DATA
  }

  predicate Whole(f: seq<byte>) { f != [] && |f| >= DataLength(f) + 3 }

  function Three(a: byte, b: byte, c: byte): Word { Word((a as bv24 << 16) | (b as bv24 << 8) | c as bv24) }

  function ParityField(f: seq<byte>): Word
    requires Whole(f)
  {
    var n := DataLength(f);
    Three(f[n], f[n + 1], f[n + 2])
  }

  /** check_CRC. */
  function Syndrome(f: seq<byte>): Word
    requires Whole(f)
  {
    Plus(ParityField(f), Crc(f[..DataLength(f)]))
  }

  function WordOctets(w: Word): (r: seq<byte>)
    ensures |r| == 3
  {
    [(w.v >> 16) as byte, ((w.v >> 8) & 0xFF) as byte, (w.v & 0xFF) as byte]
  }

  /** Data followed by its parity field with `overlay` on it: zero for the extended squitters that make_CRC
      completes, the transponder's address in the address-parity formats. */
  function Protected(data: seq<byte>, overlay: Word): seq<byte> { data + WordOctets(Plus(Crc(data), overlay)) }

  lemma WordBack(w: Word)
    ensures var o := WordOctets(w); Three(o[0], o[1], o[2]) == w
  {
  }

  /** The receiver's syndrome is what was laid over the parity: zero for make_CRC's frames, else the address. */
  lemma SyndromeIsOverlay(data: seq<byte>, overlay: Word)
    requires data != [] && |data| == DataLength(data)
    ensures Whole(Protected(data, overlay)) && Syndrome(Protected(data, overlay)) == overlay
  {
    hide Crc, Three, WordOctets, Plus;
    var f := Protected(data, overlay);
    assert f[..|data|] == data;
    WordBack(Plus(Crc(data), overlay));
    Cancels(Crc(data), overlay);
  }

  lemma Cancels(c: Word, a: Word)
    ensures Plus(Plus(c, a), c) == a
  {
  }

  // ----- the division is linear and loses nothing

  function Falses(n: nat): (r: seq<bool>)
    ensures |r| == n && forall i :: 0 <= i < n ==> !r[i]
  {
    seq(n, _ => false)
  }

  /** Bits that differ. */
  function Xor(a: seq<bool>, b: seq<bool>): (r: seq<bool>)
    requires |a| == |b|
    ensures |r| == |a|
  {
    seq(|a|, i requires 0 <= i < |a| => a[i] != b[i])
  }

  lemma StepLinear(v: Word, w: Word, a: bool, b: bool)
    ensures Step(Plus(v, w), a != b) == Plus(Step(v, a), Step(w, b))
  {
    hide Fed, Divided, Plus;
    FedLinear(v, w, a, b);
    DividedLinear(Fed(v, a), Fed(w, b));
  }

  lemma FedLinear(v: Word, w: Word, a: bool, b: bool)
    ensures Fed(Plus(v, w), a != b) == Plus(Fed(v, a), Fed(w, b))
  {
    hide Plus;
    TopLinear(a, b);
    Regroup(v, w, Top(a), Top(b));
  }

  lemma TopLinear(a: bool, b: bool)
    ensures Top(a != b) == Plus(Top(a), Top(b))
  {
  }

  lemma Regroup(a: Word, b: Word, c: Word, d: Word)
    ensures Plus(Plus(a, b), Plus(c, d)) == Plus(Plus(a, c), Plus(b, d))
  {
  }

  lemma DividedLinear(v: Word, w: Word)
    ensures Divided(Plus(v, w)) == Plus(Divided(v), Divided(w))
  {
  }

  lemma {:induction false} RunLinear(v: Word, w: Word, a: seq<bool>, b: seq<bool>)
    requires |a| == |b|
    ensures Run(Plus(v, w), Xor(a, b)) == Plus(Run(v, a), Run(w, b))
    decreases |a|
  {
    hide Step, Plus;
    if a == [] {
      assert Xor(a, b) == [];
    } else {
      var n := |a| - 1;
      RunLinear(v, w, a[..n], b[..n]);
      assert Xor(a, b)[..n] == Xor(a[..n], b[..n]);
      StepLinear(Run(v, a[..n]), Run(w, b[..n]), a[n], b[n]);
    }
  }

  lemma {:induction false} RunAppend(r: Word, a: seq<bool>, b: seq<bool>)
    ensures Run(r, a + b) == Run(Run(r, a), b)
    decreases |b|
  {
    hide Step;
    if b == [] {
      assert a + b == a;
    } else {
      var n := |b| - 1;
      assert (a + b)[..|a| + n] == a + b[..n];
      RunAppend(r, a, b[..n]);
    }
  }

  lemma StepKeepsNonzero(r: Word)
    ensures Step(r, false) == ZERO <==> r == ZERO
  {
  }

  /** Zeros neither make nor lose a remainder. */
  lemma {:induction false} RunFalses(r: Word, n: nat)
    ensures Run(r, Falses(n)) == ZERO <==> r == ZERO
    decreases n
  {
    hide Step;
    if n > 0 {
      assert Falses(n)[..n - 1] == Falses(n - 1);
      RunFalses(r, n - 1);
      StepKeepsNonzero(Run(r, Falses(n - 1)));
    }
  }

  // ----- a register fed its own contents

  /** Eight steps over the bits of an octet. */
  function ByteStep(r: Word, b: byte): Word {
    Step(Step(Step(Step(Step(Step(Step(Step(r, b & 0x80 != 0), b & 0x40 != 0), b & 0x20 != 0), b & 0x10 != 0),
                    b & 0x08 != 0), b & 0x04 != 0), b & 0x02 != 0), b & 0x01 != 0)
  }

  lemma RunPush(r: Word, a: seq<bool>, bit: bool)
    ensures Run(r, a + [bit]) == Step(Run(r, a), bit)
  {
    assert (a + [bit])[..|a|] == a;
  }

  lemma RunNext(r: Word, s: seq<bool>, k: nat)
    requires k < |s|
    ensures Run(r, s[..k + 1]) == Step(Run(r, s[..k]), s[k])
  {
    hide Step, Run;
    assert s[..k + 1] == s[..k] + [s[k]];
    RunPush(r, s[..k], s[k]);
  }

  lemma RunEight(r: Word, s: seq<bool>)
    requires |s| == 8
    ensures Run(r, s) == Step(Step(Step(Step(Step(Step(Step(Step(r, s[0]), s[1]), s[2]), s[3]), s[4]), s[5]), s[6]), s[7])
  {
    hide Step, Run;
    RunNothing(r);
    assert s[..0] == [] && s[..8] == s;
    RunNext(r, s, 0);
    RunNext(r, s, 1);
    RunNext(r, s, 2);
    RunNext(r, s, 3);
    RunNext(r, s, 4);
    RunNext(r, s, 5);
    RunNext(r, s, 6);
    RunNext(r, s, 7);
  }

  lemma RunByte(r: Word, b: byte)
    ensures Run(r, MsbBits(b)) == ByteStep(r, b)
  {
    hide Step, Run;
    RunEight(r, MsbBits(b));
  }

  lemma RunNothing(r: Word)
    ensures Run(r, []) == r
  {
  }

  lemma RunOctets(r: Word, a: byte, b: byte, c: byte)
    ensures Run(r, AllMsbBits([a, b, c])) == ByteStep(ByteStep(ByteStep(r, a), b), c)
  {
    hide Step, Run, MsbBits, ByteStep;
    assert [a, b, c][..2] == [a, b] && [a, b][..1] == [a] && [a][..0] == [];
    assert AllMsbBits([a, b, c]) == AllMsbBits([a, b]) + MsbBits(c);
    assert AllMsbBits([a, b]) == AllMsbBits([a]) + MsbBits(b);
    assert AllMsbBits([a]) == MsbBits(a);
    RunAppend(r, AllMsbBits([a, b]), MsbBits(c));
    RunAppend(r, AllMsbBits([a]), MsbBits(b));
    RunByte(r, a);
    RunByte(ByteStep(r, a), b);
    RunByte(ByteStep(ByteStep(r, a), b), c);
  }

  /** Its own top octet only shifts a register. */
  lemma OwnOctet(a: byte, r: Word)
    requires (r.v >> 16) as byte == a
    ensures ByteStep(r, a) == Word(r.v << 8)
  {
  }

  lemma OwnContents(a: byte, b: byte, c: byte)
    ensures ByteStep(ByteStep(ByteStep(Three(a, b, c), a), b), c) == ZERO
  {
    hide ByteStep;
    var w := Three(a, b, c);
    OwnOctet(a, w);
    OwnOctet(b, Word(w.v << 8));
    OwnOctet(c, Word(w.v << 16));
  }

  /** Dividing on through three octets leaves nothing exactly when they are the remainder. */
  lemma DivisionTells(r: Word, a: byte, b: byte, c: byte)
    ensures Run(r, AllMsbBits([a, b, c])) == ZERO <==> r == Three(a, b, c)
  {
    hide Step, Run, ByteStep, Three, AllMsbBits, Plus;
    var w, bits := Three(a, b, c), AllMsbBits([a, b, c]);
    RunOctets(w, a, b, c);
    OwnContents(a, b, c);
    RunLinear(Plus(r, w), w, Falses(24), bits);
    assert Xor(Falses(24), bits) == bits;
    RunFalses(Plus(r, w), 24);
    Difference(r, w);
    PlusZero(Run(Plus(r, w), Falses(24)));
  }

  lemma Difference(r: Word, w: Word)
    ensures Plus(Plus(r, w), w) == r
    ensures Plus(r, w) == ZERO <==> r == w
  {
    Cancels(w, r);
    PlusCommutes(r, w);
    if Plus(r, w) == ZERO {
      assert Plus(Plus(r, w), w) == w;
    }
  }

  lemma PlusCommutes(a: Word, b: Word)
    ensures Plus(a, b) == Plus(b, a)
  {
  }

  lemma PlusZero(a: Word)
    ensures Plus(a, ZERO) == a && Plus(ZERO, a) == a
  {
  }

  // ----- which errors are seen

  /** The bits of data and parity. */
  function FrameBits(f: seq<byte>): seq<bool>
    requires Whole(f)
  {
    AllMsbBits(f[..DataLength(f) + 3])
  }

  lemma {:induction false} BitsAppend(a: seq<byte>, b: seq<byte>)
    ensures AllMsbBits(a + b) == AllMsbBits(a) + AllMsbBits(b)
    decreases |b|
  {
    hide MsbBits;
    if b == [] {
      assert a + b == a;
    } else {
      var n := |b| - 1;
      assert (a + b)[..|a| + n] == a + b[..n];
      BitsAppend(a, b[..n]);
    }
  }

  /** The syndrome is zero exactly when the whole frame is divisible. */
  lemma SyndromeIsDivision(f: seq<byte>)
    requires Whole(f)
    ensures Syndrome(f) == ZERO <==> Run(ZERO, FrameBits(f)) == ZERO
  {
    hide Run, Three, AllMsbBits, Plus;
    var n := DataLength(f);
    var data, p := f[..n], [f[n], f[n + 1], f[n + 2]];
    assert f[..n + 3] == data + p;
    BitsAppend(data, p);
    RunAppend(ZERO, AllMsbBits(data), AllMsbBits(p));
    DivisionTells(Crc(data), p[0], p[1], p[2]);
    Difference(ParityField(f), Crc(data));
  }

  /** A damaged frame, of whatever length it now claims, passes exactly when the bits sent within that length and the
      error leave the same remainder. */
  lemma DamagedPasses(f: seq<byte>, g: seq<byte>, n: nat, e: seq<bool>)
    requires Whole(g) && n == DataLength(g) + 3 && n <= |f|
    requires |e| == 8 * n && FrameBits(g) == Xor(AllMsbBits(f[..n]), e)
    ensures Syndrome(g) == ZERO <==> Run(ZERO, AllMsbBits(f[..n])) == Run(ZERO, e)
  {
    hide Run, AllMsbBits, Syndrome, Plus, IsLong;
    SyndromeIsDivision(g);
    RunLinear(ZERO, ZERO, AllMsbBits(f[..n]), e);
    PlusZero(ZERO);
    Difference(Run(ZERO, AllMsbBits(f[..n])), Run(ZERO, e));
  }

  /** One that still claims the length it was sent with passes exactly when the error itself is divisible. */
  lemma PassesIff(f: seq<byte>, g: seq<byte>, e: seq<bool>)
    requires Whole(f) && Whole(g) && IsLong(f) == IsLong(g) && Syndrome(f) == ZERO
    requires |e| == |FrameBits(f)| && FrameBits(g) == Xor(FrameBits(f), e)
    ensures Syndrome(g) == ZERO <==> Run(ZERO, e) == ZERO
  {
    hide Run, AllMsbBits, Syndrome, IsLong;
    SyndromeIsDivision(f);
    DamagedPasses(f, g, DataLength(f) + 3, e);
  }

  lemma FlippedFirstBit(b: byte)
    ensures MsbBits(b ^ 0x80) == Xor(MsbBits(b), [true] + Falses(7)) && (b ^ 0x80) & 0x80 != b & 0x80
  {
  }

  /** Flipping the first bit of seven octets. */
  lemma FlippedBits(b: byte, rest: seq<byte>)
    requires |rest| == 6
    ensures AllMsbBits([b ^ 0x80] + rest) == Xor(AllMsbBits([b] + rest), [true] + Falses(55))
  {
    hide MsbBits, AllMsbBits;
    FlippedFirstBit(b);
    BitsAppend([b], rest);
    BitsAppend([b ^ 0x80], rest);
    OneOctet(b);
    OneOctet(b ^ 0x80);
    var e := [true] + Falses(7);
    assert [true] + Falses(55) == e + Falses(48);
  }

  lemma FlippedIsShort(f: seq<byte>)
    requires Whole(f) && IsLong(f)
    ensures |f| >= 14
    ensures var g := f[0 := f[0] ^ 0x80]; Whole(g) && !IsLong(g) && DataLength(g) == SHORT_DATA
  {
    hide MsbBits;
    FlippedFirstBit(f[0]);
  }

  /** The one flip that shortens a long frame: it gets past the check exactly when the first 56 bits sent leave the
      remainder of that bit alone. */
  lemma ShortenedPasses(f: seq<byte>)
    requires Whole(f) && IsLong(f)
    ensures var g := f[0 := f[0] ^ 0x80];
            |f| >= 14 && Whole(g) && !IsLong(g) &&
            (Syndrome(g) == ZERO <==> Run(ZERO, AllMsbBits(f[..7])) == Run(ZERO, [true] + Falses(55)))
  {
    hide Run, AllMsbBits, Syndrome, IsLong, Xor;
    FlippedIsShort(f);
    var g := f[0 := f[0] ^ 0x80];
    FlippedBits(f[0], f[1..7]);
    assert f[..7] == [f[0]] + f[1..7] && g[..7] == [f[0] ^ 0x80] + f[1..7];
    DamagedPasses(f, g, 7, [true] + Falses(55));
  }

  lemma OneOctet(b: byte)
    ensures AllMsbBits([b]) == MsbBits(b)
  {
    hide MsbBits;
    assert [b][..0] == [];
  }

  /** There are such frames: one of zeros but for its first bit. */
  lemma ShortenedFrame()
    ensures var f := Protected([0x80] + Zeros(10), ZERO); var g := f[0 := f[0] ^ 0x80];
            && Whole(f) && IsLong(f) && Syndrome(f) == ZERO
            && Whole(g) && !IsLong(g) && Syndrome(g) == ZERO
  {
    hide Run, Syndrome, WordOctets, Crc, Plus;
    var data := [0x80] + Zeros(10);
    var f := Protected(data, ZERO);
    SyndromeIsOverlay(data, ZERO);
    ShortenedPasses(f);
    var rest := Zeros(6);
    assert f[..7] == [0x80] + rest;
    BitsAppend([0x80], rest);
    OneOctet(0x80);
    ZeroBits(6);
    assert MsbBits(0x80) == [true] + Falses(7);
    assert AllMsbBits(f[..7]) == [true] + Falses(55);
  }

  function Zeros(n: nat): (r: seq<byte>)
    ensures |r| == n
  {
    seq(n, _ => 0)
  }

  lemma {:induction false} ZeroBits(n: nat)
    ensures AllMsbBits(Zeros(n)) == Falses(8 * n)
  {
    if n > 0 {
      assert Zeros(n)[..n - 1] == Zeros(n - 1);
      ZeroBits(n - 1);
    }
  }

  /** An octet from its bits. */
  function OctetOf(s: seq<bool>): byte
    requires |s| == 8
  {
    (if s[0] then 0x80 else 0) | (if s[1] then 0x40 else 0) | (if s[2] then 0x20 else 0) | (if s[3] then 0x10 else 0) |
    (if s[4] then 0x08 else 0) | (if s[5] then 0x04 else 0) | (if s[6] then 0x02 else 0) | (if s[7] then 0x01 else 0)
  }

  lemma OctetBack(s: seq<bool>)
    requires |s| == 8
    ensures MsbBits(OctetOf(s)) == s
  {
  }

  lemma NoBitsSet(s: seq<bool>)
    requires |s| == 8 && OctetOf(s) == 0
    ensures forall i :: 0 <= i < 8 ==> !s[i]
  {
    OctetBack(s);
    assert MsbBits(0)[0] == s[0];
  }

  lemma WordIsZero(a: byte, b: byte, c: byte)
    requires Three(a, b, c) == ZERO
    ensures a == 0 && b == 0 && c == 0
  {
  }

  /** Up to 24 bits that are not all zero leave a remainder. */
  lemma ShortBurstRemains(burst: seq<bool>)
    requires |burst| <= 24 && Run(ZERO, burst) == ZERO
    ensures forall i :: 0 <= i < |burst| ==> !burst[i]
  {
    hide Run, OctetOf, MsbBits, Three;
    var s := burst + Falses(24 - |burst|);
    RunAppend(ZERO, burst, Falses(24 - |burst|));
    RunFalses(ZERO, 24 - |burst|);
    var x, y, z := s[..8], s[8..16], s[16..];
    var a, b, c := OctetOf(x), OctetOf(y), OctetOf(z);
    OctetBack(x);
    OctetBack(y);
    OctetBack(z);
    ThreeOctets(a, b, c);
    assert s == x + y + z;
    DivisionTells(ZERO, a, b, c);
    WordIsZero(a, b, c);
    NoBitsSet(x);
    NoBitsSet(y);
    NoBitsSet(z);
    forall i | 0 <= i < |burst|
      ensures !burst[i]
    {
      assert burst[i] == s[i] == if i < 8 then x[i] else if i < 16 then y[i - 8] else z[i - 16];
    }
  }

  lemma ThreeOctets(a: byte, b: byte, c: byte)
    ensures AllMsbBits([a, b, c]) == MsbBits(a) + MsbBits(b) + MsbBits(c)
  {
    hide MsbBits;
    assert [a, b, c][..2] == [a, b] && [a, b][..1] == [a] && [a][..0] == [];
    assert AllMsbBits([a, b]) == AllMsbBits([a]) + MsbBits(b);
    assert AllMsbBits([a]) == MsbBits(a);
  }

  /** The generator is x^24 + x^23 + ... + x^12 + x^10 + x^3 + 1: behind a first bit, these three octets alone leave no
      remainder. */
  lemma GeneratorDivides(a: byte, b: byte, c: byte)
    ensures Crc([0x01, a, b, c]) == ZERO <==> a == 0xFF && b == 0xF4 && c == 0x09
  {
    hide Step, Run, ByteStep, MsbBits, AllMsbBits, Three;
    BitsAppend([0x01], [a, b, c]);
    assert [0x01] + [a, b, c] == [0x01, a, b, c];
    OneOctet(0x01);
    RunAppend(ZERO, MsbBits(0x01), AllMsbBits([a, b, c]));
    RunByte(ZERO, 0x01);
    OneBitLeaves();
    DivisionTells(Run(ZERO, MsbBits(0x01)), a, b, c);
    WordOf(a, b, c);
  }

  lemma OneBitLeaves()
    ensures ByteStep(ZERO, 0x01) == Word(0xFFF409)
  {
  }

  lemma WordOf(a: byte, b: byte, c: byte)
    ensures Word(0xFFF409) == Three(a, b, c) <==> a == 0xFF && b == 0xF4 && c == 0x09
  {
  }

  /** No burst of up to 24 bits gets past the check, wherever it strikes data or parity, if the frame still claims the
      length it was sent with. */
  lemma BurstsAreSeen(f: seq<byte>, g: seq<byte>, before: nat, burst: seq<bool>, behind: nat)
    requires Whole(f) && Whole(g) && IsLong(f) == IsLong(g) && Syndrome(f) == ZERO
    requires |burst| <= 24 && before + |burst| + behind == |FrameBits(f)|
    requires FrameBits(g) == Xor(FrameBits(f), Falses(before) + burst + Falses(behind))
    ensures Syndrome(g) == ZERO <==> forall i :: 0 <= i < |burst| ==> !burst[i]
  {
    hide Run, FrameBits, Syndrome, Plus;
    var e := Falses(before) + burst + Falses(behind);
    PassesIff(f, g, e);
    RunAppend(ZERO, Falses(before) + burst, Falses(behind));
    RunAppend(ZERO, Falses(before), burst);
    RunFalses(ZERO, before);
    RunFalses(Run(ZERO, burst), behind);
    if Run(ZERO, burst) == ZERO {
      ShortBurstRemains(burst);
    }
    if forall i :: 0 <= i < |burst| ==> !burst[i] {
      assert burst == Falses(|burst|);
      RunFalses(ZERO, |burst|);
    }
  }

  // ----- the engine

  /** mode_s_crc. */
  method ModeSCrc(data: seq<byte>) returns (crc: Word)
    ensures crc == Crc(data)
  {
    hide MsbBits, Step;
    crc := ZERO;
    for i := 0 to |data|
      invariant crc == Run(ZERO, AllMsbBits(data[..i]))
    {
      assert data[..i + 1][..i] == data[..i];
      var wire := MsbBits(data[i]);
      ghost var sofar := crc;
      for k := 0 to 8
        invariant crc == Run(sofar, wire[..k])
      {
        assert wire[..k + 1] == wire[..k] + [wire[k]];
        RunPush(sofar, wire[..k], wire[k]);
        crc := Step(crc, wire[k]);
      }
      assert wire[..8] == wire;
      RunAppend(ZERO, AllMsbBits(data[..i]), wire);
    }
    assert data[..|data|] == data;
  }
}
