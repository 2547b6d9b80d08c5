/** The demodulator inverts the chip stream of the Mode S transmitter (adsb_frame_waveform in
    src/apps/ui_adsb_tx.cpp): no data pattern causes a false or restarted preamble lock. */
module AdsbLink {
  import opened Bits
  import opened AdsbDemod

  // ----- the chip stream

  const PULSES := [true, false, true, false, false, false, false, true, false, true, false, false, false, false, false, false]

  /** Manchester: a one is high then low, a zero low then high. */
  function Chips(bits: seq<bool>): (r: seq<bool>)
    ensures |r| == 2 * |bits|
  {
    seq(2 * |bits|, j requires 0 <= j < 2 * |bits| => if j % 2 == 0 then bits[j / 2] else !bits[j / 2])
  }

  /** Fourteen octets when the top bit of the first one is set, else seven. */
  predicate GoodFrame(f: seq<byte>) { f != [] && |f| == if f[0] & 0x80 != 0 then 14 else 7 }

  function FrameChips(f: seq<byte>): seq<bool> { PULSES + Chips(AllMsbBits(f)) }

  method UnpackBitsMsb(data: seq<byte>) returns (bits: seq<bool>)
    ensures bits == AllMsbBits(data)
  {
    hide MsbBits;
    bits := [];
    for i := 0 to |data|
      invariant bits == AllMsbBits(data[..i])
    {
      assert data[..i + 1][..i] == data[..i];
      bits := bits + MsbBits(data[i]);
    }
    assert data[..|data|] == data;
  }

  method ManchesterEncode(bits: seq<bool>) returns (chips: seq<bool>)
    ensures chips == Chips(bits)
  {
    chips := [];
    for i := 0 to |bits|
      invariant |chips| == 2 * i
      invariant forall j :: 0 <= j < 2 * i ==> chips[j] == if j % 2 == 0 then bits[j / 2] else !bits[j / 2]
    {
      chips := chips + [bits[i], !bits[i]];
    }
  }

  /** The chips of adsb_frame_waveform. */
  method FrameWaveform(f: seq<byte>) returns (chips: seq<bool>)
    ensures chips == FrameChips(f)
  {
    var bits := UnpackBitsMsb(f);
    var payload := ManchesterEncode(bits);
    chips := PULSES;
    chips := chips + payload;
  }

  function Level(on: bool, a: real): real { if on then a else 0.0 }

  /** Chips keyed at one amplitude, a sample a chip. */
  function Keyed(chips: seq<bool>, a: real): (r: seq<real>)
    ensures |r| == |chips|
  {
    seq(|chips|, i requires 0 <= i < |chips| => Level(chips[i], a))
  }

  // ----- the samples the window holds

  function Sample(h: seq<real>, j: int): real { if 0 <= j < |h| then h[j] else 0.0 }

  /** The last seventeen samples, with silence in front of the first. */
  function Last(h: seq<real>): (r: seq<real>)
    ensures |r| == WINDOW
  {
    seq(WINDOW, i requires 0 <= i < WINDOW => Sample(h, |h| - WINDOW + i))
  }

  /** The window behind at most seventeen more samples. */
  lemma LastOfSum(h: seq<real>, p: seq<real>, i: nat)
    requires |p| <= WINDOW && i < WINDOW
    ensures Last(h + p)[i] == if i + |p| < WINDOW then Last(h)[i + |p|] else p[i + |p| - WINDOW]
  {
    var g := h + p;
    assert Last(g)[i] == Sample(g, |h| + |p| - WINDOW + i);
    if i + |p| < WINDOW {
      assert Last(h)[i + |p|] == Sample(h, |h| - WINDOW + (i + |p|));
    } else {
      assert g[|h| + (i + |p| - WINDOW)] == p[i + |p| - WINDOW];
    }
  }

  lemma LastPush(h: seq<real>, x: real)
    ensures Last(h + [x]) == Last(h)[1..] + [x]
  {
    hide Last;
    forall i | 0 <= i < WINDOW
      ensures Last(h + [x])[i] == (Last(h)[1..] + [x])[i]
    {
      LastOfSum(h, [x], i);
    }
  }

  /** The last sixteen samples were silent. */
  predicate Quiet(h: seq<real>) { forall i :: 1 <= i < WINDOW ==> Last(h)[i] == 0.0 }

  /** No sample in the window above `a`. */
  predicate Below(h: seq<real>, a: real) { forall i :: 0 <= i < WINDOW ==> 0.0 <= Last(h)[i] <= a }

  // ----- what a preamble may look like

  predicate IsPulse(i: nat) { i == 1 || i == 3 || i == 8 || i == 10 }

  /** A preamble locks in noise too: pulses of at least `low`, and between and behind them, up to the fourteenth place of the
      window, nothing above a noise level below them of which nine times is less than four pulses. */
  lemma NoisyPreambleLocks(w: seq<real>, low: real, noise: real)
    requires |w| == 17 && noise < low && 9.0 * noise < 4.0 * low
    requires forall i :: 0 <= i <= 14 ==> if IsPulse(i) then w[i] >= low else w[i] <= noise
    ensures Locks(w) && Amp(w) >= 4.0 * low
  {
    assert w[1] >= low && w[3] >= low && w[8] >= low && w[10] >= low;
    assert w[0] <= noise && w[2] <= noise && w[4] <= noise && w[5] <= noise && w[6] <= noise && w[7] <= noise;
    assert w[9] <= noise && w[11] <= noise && w[12] <= noise && w[13] <= noise && w[14] <= noise;
    assert Amp(w) / 9.0 > noise;
  }

  /** Two samples behind a pulse pair and three at the end must lie below a ninth of the four pulses. */
  lemma LoudGapRefuses(w: seq<real>, i: nat)
    requires |w| == 17 && (i == 5 || i == 6 || i == 12 || i == 13 || i == 14)
    requires 9.0 * w[i] >= w[1] + w[3] + w[8] + w[10]
    ensures !Locks(w)
  {
    assert w[i] >= Amp(w) / 9.0;
  }

  // ----- hunting

  /** A sample that neither decodes nor locks moves only the window. */
  lemma IdleStep(d: Demod, h: seq<real>, x: real)
    requires !d.decoding && d.shifter == Last(h) && !Locks(Last(h + [x]))
    ensures Process(d, x) == d.(shifter := Last(h + [x]), prev := x)
  {
    hide Locks, Last;
    LastPush(h, x);
  }

  /** Part of a preamble behind silence does not lock, since the first pulse has not reached its place. */
  lemma PartialPreamble(h: seq<real>, p: seq<real>)
    requires Quiet(h) && 1 <= |p| <= 15
    ensures !Locks(Last(h + p))
  {
    hide Last;
    LastOfSum(h, p, 0);
    LastOfSum(h, p, 1);
    assert Last(h)[|p|] == 0.0 && Last(h)[|p| + 1] == 0.0;
  }

  lemma {:induction false} PreambleRun(d: Demod, h: seq<real>, p: seq<real>)
    requires !d.decoding && d.shifter == Last(h) && Quiet(h) && |p| <= 15
    ensures Run(d, p) == d.(shifter := Last(h + p), prev := if p == [] then d.prev else p[|p| - 1])
    decreases |p|
  {
    hide Process, Last, Quiet, Locks;
    if p == [] {
      assert h + p == h;
    } else {
      var n := |p| - 1;
      PreambleRun(d, h, p[..n]);
      PartialPreamble(h, p);
      assert h + p == h + p[..n] + [p[n]];
      IdleStep(Run(d, p[..n]), h + p[..n], p[n]);
    }
  }

  /** The whole preamble locks, at four times the amplitude. */
  lemma WholePreamble(h: seq<real>, a: real)
    requires Quiet(h) && a > 0.0
    ensures Locks(Last(h + Keyed(PULSES, a))) && Amp(Last(h + Keyed(PULSES, a))) == 4.0 * a
    ensures Below(h + Keyed(PULSES, a), a)
  {
    var p := Keyed(PULSES, a);
    hide Last;
    var w := Last(h + p);
    forall i | 0 <= i < WINDOW
      ensures w[i] == if i == 0 then Last(h)[16] else p[i - 1]
    {
      LastOfSum(h, p, i);
    }
  }

  lemma PreambleLocks(d: Demod, h: seq<real>, a: real)
    requires !d.decoding && d.shifter == Last(h) && Quiet(h) && a > 0.0
    ensures var g := h + Keyed(PULSES, a);
            Run(d, Keyed(PULSES, a)) == Start(d, 4.0 * a).(shifter := Last(g), prev := 0.0)
  {
    hide Last, Quiet, Locks, Amp, Below;
    var p := Keyed(PULSES, a);
    PreambleRun(d, h, p[..15]);
    assert p == p[..15] + [0.0];
    RunPush(d, p[..15], 0.0);
    assert h + p[..15] + [0.0] == h + p;
    LastPush(h + p[..15], 0.0);
    WholePreamble(h, a);
  }

  // ----- decoding

  predicate Receiving(d: Demod, h: seq<real>, a: real) {
    d.decoding && d.amp == 4.0 * a && d.shifter == Last(h) && Below(h, a)
  }

  lemma BelowPush(h: seq<real>, a: real, x: real)
    requires Below(h, a) && 0.0 <= x <= a
    ensures Below(h + [x], a)
  {
    hide Last;
    forall i | 0 <= i < WINDOW
      ensures 0.0 <= Last(h + [x])[i] <= a
    {
      LastOfSum(h, [x], i);
    }
  }

  /** While a frame is decoded nothing of its own strength restarts the demodulator. */
  lemma BusyStep(d: Demod, h: seq<real>, a: real, x: real)
    requires Receiving(d, h, a) && 0.0 <= x <= a && Decode(d, x).decoding
    ensures Process(d, x) == Decode(d, x).(shifter := Last(h + [x]), prev := x)
    ensures Below(h + [x], a)
  {
    hide TakeBit, Last, Locks;
    LastPush(h, x);
    BelowPush(h, a, x);
    var w := Last(h + [x]);
    assert w[1] <= a && w[3] <= a && w[8] <= a && w[10] <= a;
    DecodeKeeps(d, x);
  }

  lemma DecodeKeeps(d: Demod, x: real)
    ensures Decode(d, x).amp == d.amp && Decode(d, x).shifter == d.shifter && Decode(d, x).prev == d.prev
  {
    hide TakeBit;
    CountKept(d, d.prev > x);
    CountKept(d.(decoding := false, emitted := d.emitted + [(d.frame, d.amp)]), d.prev > x);
  }

  /** Two samples of a bit. */
  lemma BitRun(d: Demod, h: seq<real>, a: real, bit: bool)
    requires Receiving(d, h, a) && a > 0.0 && d.sampleCount % 2 == 0 && d.bitCount < d.msgLen
    ensures var p := [Level(bit, a), Level(!bit, a)];
            && Run(d, p) == TakeBit(d, bit).(sampleCount := d.sampleCount + 2, shifter := Last(h + p), prev := Level(!bit, a))
            && Below(h + p, a)
  {
    hide TakeBit, Last, Below, Process, Run;
    var x, y := Level(bit, a), Level(!bit, a);
    var m := d.(sampleCount := d.sampleCount + 1, shifter := Last(h + [x]), prev := x);
    NothingRun(d);
    RunPush(d, [], x);
    assert [] + [x] == [x] && [x] + [y] == [x, y] && h + [x] + [y] == h + [x, y];
    BusyStep(d, h, a, x);
    RunPush(d, [x], y);
    OddSample(m, y);
    BusyStep(m, h + [x], a, y);
    TakeBitFrame(d, m, bit, h + [x], x);
  }

  lemma NothingRun(d: Demod)
    requires |d.shifter| == WINDOW
    ensures Run(d, []) == d
  {
  }

  lemma OddSample(m: Demod, y: real)
    requires m.decoding && m.sampleCount % 2 == 1 && m.bitCount < m.msgLen
    ensures Decode(m, y).decoding && Decode(m, y) == TakeBit(m, m.prev > y).(sampleCount := m.sampleCount + 1)
  {
    hide TakeBit;
    CountKept(m, m.prev > y);
  }

  /** A bit does not look at the window. */
  lemma TakeBitFrame(d: Demod, m: Demod, bit: bool, g: seq<real>, x: real)
    requires m == d.(sampleCount := d.sampleCount + 1, shifter := Last(g), prev := x)
    ensures TakeBit(m, bit) == TakeBit(d, bit).(sampleCount := d.sampleCount + 1, shifter := Last(g), prev := x)
  {
    hide ShiftIn, Last;
  }

  function Taken(d: Demod, bits: seq<bool>): Demod {
    if bits == [] then d else TakeBit(Taken(d, bits[..|bits| - 1]), bits[|bits| - 1])
  }

  lemma TakenPush(d: Demod, bits: seq<bool>, bit: bool)
    ensures Taken(d, bits + [bit]) == TakeBit(Taken(d, bits), bit)
  {
    assert (bits + [bit])[..|bits|] == bits;
  }

  lemma {:induction false} TakenKeeps(d: Demod, bits: seq<bool>)
    ensures var t := Taken(d, bits);
            t.sampleCount == d.sampleCount && t.emitted == d.emitted && t.decoding == d.decoding && t.shifter == d.shifter &&
            t.amp == d.amp && t.prev == d.prev && t.bitCount == d.bitCount + |bits|
  {
    hide TakeBit;
    if bits != [] {
      TakenKeeps(d, bits[..|bits| - 1]);
      CountKept(Taken(d, bits[..|bits| - 1]), bits[|bits| - 1]);
      BitCounted(Taken(d, bits[..|bits| - 1]), bits[|bits| - 1]);
    }
  }

  lemma BitCounted(d: Demod, bit: bool)
    ensures TakeBit(d, bit).bitCount == d.bitCount + 1
    ensures d.bitCount != 7 ==> TakeBit(d, bit).msgLen == d.msgLen
  {
    hide ShiftIn;
  }

  /** Where the samples of a list of bits leave the demodulator. */
  function After(d: Demod, h: seq<real>, a: real, bits: seq<bool>): Demod {
    var p := Keyed(Chips(bits), a);
    Taken(d, bits).(sampleCount := d.sampleCount + 2 * |bits|, shifter := Last(h + p),
                    prev := if bits == [] then d.prev else Level(!bits[|bits| - 1], a))
  }

  lemma ChipsPush(bits: seq<bool>, a: real)
    requires bits != []
    ensures var n := |bits| - 1;
            Keyed(Chips(bits), a) == Keyed(Chips(bits[..n]), a) + [Level(bits[n], a), Level(!bits[n], a)]
  {
  }

  /** The samples of a list of bits, as long as the message is not over. */
  lemma {:induction false} BitsRun(d: Demod, h: seq<real>, a: real, bits: seq<bool>)
    requires Receiving(d, h, a) && a > 0.0 && d.sampleCount % 2 == 0
    requires forall k {:trigger bits[..k]} :: 0 <= k < |bits| ==> Taken(d, bits[..k]).bitCount < Taken(d, bits[..k]).msgLen
    ensures Run(d, Keyed(Chips(bits), a)) == After(d, h, a, bits)
    ensures Below(h + Keyed(Chips(bits), a), a)
    decreases |bits|
  {
    hide TakeBit, Run, Last, Below, Keyed, Chips, Level;
    if bits == [] {
      assert bits[..0] == [];
      NothingKeyed(a);
      NothingRun(d);
      assert h + [] == h;
    } else {
      var n := |bits| - 1;
      var front := bits[..n];
      forall k | 0 <= k < n
        ensures Taken(d, front[..k]).bitCount < Taken(d, front[..k]).msgLen
      {
        assert front[..k] == bits[..k];
      }
      BitsRun(d, h, a, front);
      var p, x, y := Keyed(Chips(front), a), Level(bits[n], a), Level(!bits[n], a);
      ChipsPush(bits, a);
      RunAppend(d, p, [x, y]);
      TakenKeeps(d, front);
      assert h + p + [x, y] == h + (p + [x, y]);
      BitRun(After(d, h, a, front), h + p, a, bits[n]);
      AfterBit(d, h, a, bits);
    }
  }

  lemma AfterBit(d: Demod, h: seq<real>, a: real, bits: seq<bool>)
    requires bits != []
    ensures var n := |bits| - 1; var p := h + Keyed(Chips(bits), a);
            After(d, h, a, bits) == TakeBit(After(d, h, a, bits[..n]), bits[n]).(sampleCount := d.sampleCount + 2 * |bits|,
              shifter := Last(p), prev := Level(!bits[n], a))
  {
    hide ShiftIn, Last, Keyed, Chips, Level;
  }

  lemma NothingKeyed(a: real)
    ensures Keyed(Chips([]), a) == []
  {
  }

  // ----- octets

  lemma {:induction false} TakenAppend(d: Demod, a: seq<bool>, b: seq<bool>)
    ensures Taken(d, a + b) == Taken(Taken(d, a), b)
    decreases |b|
  {
    hide TakeBit;
    if b == [] {
      assert a + b == a;
    } else {
      var n := |b| - 1;
      assert (a + b)[..|a| + n] == a + b[..n];
      TakenAppend(d, a, b[..n]);
    }
  }

  function Shifted(o: Register, s: seq<bool>): Register
    requires |s| == 8
  {
    ShiftIn(ShiftIn(ShiftIn(ShiftIn(ShiftIn(ShiftIn(ShiftIn(ShiftIn(o, s[0]), s[1]), s[2]), s[3]), s[4]), s[5]), s[6]), s[7])
  }

  lemma EightShifts(o: Register, b: byte)
    ensures Shifted(o, MsbBits(b)) == Register(b)
  {
  }

  function OctetTaken(d: Demod, b: byte): Demod {
    d.(octet := Register(b), bitCount := d.bitCount + 8, frame := if |d.frame| < FRAME_BYTES then d.frame + [b] else d.frame,
       msgLen := if d.bitCount == 0 then Length(b) else d.msgLen)
  }

  lemma NotWhole(c: nat, n: nat)
    requires c % 8 == 0 && n < 7
    ensures (c + n + 1) % 8 != 0
  {
  }

  /** One bit that does not complete an octet. */
  lemma PlainBit(d: Demod, t: Demod, bit: bool, n: nat)
    requires d.bitCount % 8 == 0 && n < 7 && t.bitCount == d.bitCount + n
    ensures TakeBit(t, bit) == t.(octet := ShiftIn(t.octet, bit), bitCount := d.bitCount + n + 1)
  {
    hide ShiftIn, Length;
    NotWhole(d.bitCount, n);
  }

  lemma SevenBits(d: Demod, s: seq<bool>, o: Register)
    requires d.bitCount % 8 == 0 && |s| == 8
    requires o == ShiftIn(ShiftIn(ShiftIn(ShiftIn(ShiftIn(ShiftIn(ShiftIn(d.octet, s[0]), s[1]), s[2]), s[3]), s[4]), s[5]), s[6])
    ensures Taken(d, s[..7]) == d.(octet := o, bitCount := d.bitCount + 7)
  {
    hide ShiftIn, Taken, TakeBit;
    NoBitsTaken(d);
    assert s[..0] == [];
    var t1 := OneBit(d, d, s, 0);
    var t2 := OneBit(d, t1, s, 1);
    var t3 := OneBit(d, t2, s, 2);
    var t4 := OneBit(d, t3, s, 3);
    var t5 := OneBit(d, t4, s, 4);
    var t6 := OneBit(d, t5, s, 5);
    var t7 := OneBit(d, t6, s, 6);
  }

  lemma OneBit(d: Demod, t: Demod, s: seq<bool>, n: nat) returns (u: Demod)
    requires d.bitCount % 8 == 0 && n < 7 && |s| == 8 && t.bitCount == d.bitCount + n && Taken(d, s[..n]) == t
    ensures Taken(d, s[..n + 1]) == u && u == t.(octet := ShiftIn(t.octet, s[n]), bitCount := d.bitCount + n + 1)
  {
    hide ShiftIn, Taken, TakeBit;
    assert s[..n + 1] == s[..n] + [s[n]];
    TakenPush(d, s[..n], s[n]);
    PlainBit(d, t, s[n], n);
    u := TakeBit(t, s[n]);
  }

  lemma NoBitsTaken(d: Demod)
    ensures Taken(d, []) == d
  {
  }

  lemma TakeOctet(d: Demod, b: byte)
    requires d.bitCount % 8 == 0
    ensures Taken(d, MsbBits(b)) == OctetTaken(d, b)
  {
    hide MsbBits, ShiftIn, Taken, Length;
    var s := MsbBits(b);
    var o := ShiftIn(ShiftIn(ShiftIn(ShiftIn(ShiftIn(ShiftIn(ShiftIn(d.octet, s[0]), s[1]), s[2]), s[3]), s[4]), s[5]), s[6]);
    SevenBits(d, s, o);
    TakenPush(d, s[..7], s[7]);
    assert s == s[..7] + [s[7]];
    EightShifts(d.octet, b);
    assert (d.bitCount + 8) % 8 == 0;
  }

  /** All octets of a frame. */
  lemma {:induction false} FrameTaken(d: Demod, f: seq<byte>)
    requires d.bitCount == 0 && d.frame == [] && |f| <= FRAME_BYTES
    ensures var t := Taken(d, AllMsbBits(f));
            t.frame == f && t.bitCount == 8 * |f| && t.msgLen == if f == [] then d.msgLen else Length(f[0])
  {
    hide TakeBit, MsbBits, Length, Taken;
    if f == [] {
      NoBitsTaken(d);
    } else {
      var n := |f| - 1;
      FrameTaken(d, f[..n]);
      TakenAppend(d, AllMsbBits(f[..n]), MsbBits(f[n]));
      TakeOctet(Taken(d, AllMsbBits(f[..n])), f[n]);
      assert f == f[..n] + [f[n]];
    }
  }

  lemma {:induction false} LengthSettled(d: Demod, bits: seq<bool>, k: nat)
    requires d.bitCount == 0 && k <= |bits|
    ensures Taken(d, bits[..k]).msgLen == if k < 8 then d.msgLen else Taken(d, bits[..8]).msgLen
    decreases k
  {
    hide TakeBit, Taken;
    if k == 0 {
      assert bits[..0] == [];
      NoBitsTaken(d);
    } else {
      LengthSettled(d, bits, k - 1);
      assert bits[..k] == bits[..k - 1] + [bits[k - 1]];
      TakenPush(d, bits[..k - 1], bits[k - 1]);
      TakenKeeps(d, bits[..k - 1]);
      BitCounted(Taken(d, bits[..k - 1]), bits[k - 1]);
    }
  }

  lemma {:induction false} FirstOctet(f: seq<byte>)
    requires f != []
    ensures AllMsbBits(f)[..8] == MsbBits(f[0])
  {
    hide MsbBits;
    if |f| > 1 {
      FirstOctet(f[..|f| - 1]);
      assert AllMsbBits(f)[..8] == AllMsbBits(f[..|f| - 1])[..8];
    } else {
      assert AllMsbBits(f[..0]) == [];
    }
  }

  /** The message is not over before its last bit. */
  lemma NotOverYet(d: Demod, f: seq<byte>, k: nat)
    requires d.bitCount == 0 && d.msgLen == LONG && GoodFrame(f) && k < 8 * |f|
    ensures Taken(d, AllMsbBits(f)[..k]).bitCount < Taken(d, AllMsbBits(f)[..k]).msgLen
  {
    hide TakeBit, Taken, MsbBits;
    var bits := AllMsbBits(f);
    TakenKeeps(d, bits[..k]);
    LengthSettled(d, bits, k);
    FirstOctet(f);
    TakeOctet(d, f[0]);
  }

  // ----- behind the last bit

  /** Of any four chips in a row one is high. */
  lemma SomeHigh(bits: seq<bool>, a: real, j: nat)
    requires j + 4 <= 2 * |bits| && a > 0.0
    ensures var p := Keyed(Chips(bits), a); !(p[j] < a && p[j + 1] < a && p[j + 2] < a && p[j + 3] < a)
  {
    var i := (j + 1) / 2;
    var c := Chips(bits);
    assert c[2 * i] == bits[i] && c[2 * i + 1] == !bits[i];
  }

  lemma ChipLevels(bits: seq<bool>, a: real, j: nat)
    requires j < 2 * |bits| && a > 0.0
    ensures Keyed(Chips(bits), a)[j] == 0.0 || Keyed(Chips(bits), a)[j] == a
  {
  }

  /** Two silent samples behind the data, no window locks. */
  lemma TailNeverLocks(g: seq<real>, bits: seq<bool>, a: real, n: nat)
    requires |bits| >= 9 && a > 0.0 && n >= 2
    ensures !Locks(Last(g + Keyed(Chips(bits), a) + Zeros(n)))
  {
    hide Chips, Keyed, Amp, Last;
    var p := Keyed(Chips(bits), a);
    var h := g + p + Zeros(n);
    var w := Last(h);
    forall i | 0 <= i < WINDOW
      ensures i + n >= WINDOW ==> w[i] == 0.0
      ensures i + n < WINDOW ==> w[i] == p[|p| + n + i - WINDOW]
    {
      LastIsSample(h, i);
      if i + n >= WINDOW {
        assert h[|h| - WINDOW + i] == Zeros(n)[n + i - WINDOW];
      } else {
        assert h[|h| - WINDOW + i] == p[|p| + n + i - WINDOW];
      }
    }
    if n <= 9 {
      var j := |p| + n + 4 - WINDOW;
      SomeHigh(bits, a, j);
      ChipLevels(bits, a, j - 3);
      assert w[4] == p[j] && w[5] == p[j + 1] && w[6] == p[j + 2] && w[7] == p[j + 3] && w[1] == p[j - 3];
    } else {
      assert w[8] == 0.0 && w[9] == 0.0;
    }
  }

  lemma LastIsSample(h: seq<real>, i: nat)
    requires i < WINDOW
    ensures Last(h)[i] == Sample(h, |h| - WINDOW + i)
  {
  }

  // ----- one frame and the silence behind it

  datatype Burst = Burst(frame: seq<byte>, amplitude: real, silence: nat)

  predicate GoodBurst(b: Burst) { GoodFrame(b.frame) && b.amplitude > 0.0 && b.silence >= 16 }

  function Samples(b: Burst): seq<real> {
    Keyed(PULSES, b.amplitude) + Keyed(Chips(AllMsbBits(b.frame)), b.amplitude) + Zeros(b.silence)
  }

  /** Between bursts: not decoding, the window tracks the samples, and the last sixteen were silent. */
  predicate Idle(d: Demod, h: seq<real>) { !d.decoding && d.shifter == Last(h) && Quiet(h) }

  /** Behind the data: every bit taken, the frame complete. */
  predicate Complete(d: Demod, g: seq<real>, b: Burst, e: seq<(seq<byte>, real)>) {
    && Receiving(d, g, b.amplitude) && d.sampleCount % 2 == 0 && d.bitCount >= d.msgLen
    && d.frame == b.frame && d.emitted == e
  }

  lemma DataRun(d: Demod, h: seq<real>, b: Burst)
    requires Idle(d, h) && GoodBurst(b)
    ensures var p, q := Keyed(PULSES, b.amplitude), Keyed(Chips(AllMsbBits(b.frame)), b.amplitude);
            Complete(Run(d, p + q), h + p + q, b, d.emitted)
  {
    hide TakeBit, MsbBits, Last, Below, Run, Taken, Locks, Quiet, Keyed, Chips, Length;
    var a, bits := b.amplitude, AllMsbBits(b.frame);
    var p, q := Keyed(PULSES, a), Keyed(Chips(bits), a);
    PreambleLocks(d, h, a);
    WholePreamble(h, a);
    RunAppend(d, p, q);
    var s := Run(d, p);
    StartedFresh(d, s, a, h + p);
    forall k {:trigger bits[..k]} | 0 <= k < |bits|
      ensures Taken(s, bits[..k]).bitCount < Taken(s, bits[..k]).msgLen
    {
      NotOverYet(s, b.frame, k);
    }
    BitsRun(s, h + p, a, bits);
    FrameFits(b.frame);
    FrameTaken(s, b.frame);
    TakenKeeps(s, bits);
  }

  lemma StartedFresh(d: Demod, s: Demod, a: real, g: seq<real>)
    requires s == Start(d, 4.0 * a).(shifter := Last(g), prev := 0.0)
    ensures s.decoding && s.amp == 4.0 * a && s.sampleCount == 0 && s.bitCount == 0 && s.msgLen == LONG && s.frame == []
    ensures s.shifter == Last(g) && s.emitted == d.emitted
  {
    hide Last;
  }

  lemma FrameFits(f: seq<byte>)
    requires GoodFrame(f)
    ensures 7 <= |f| <= FRAME_BYTES && f != [] && 8 * |f| == Length(f[0])
  {
  }

  /** The first silent sample belongs to no bit yet, the second one hands the frame over. */
  lemma HandOver(d: Demod, g: seq<real>, b: Burst, e: seq<(seq<byte>, real)>)
    requires Complete(d, g, b, e) && b.amplitude > 0.0 && !Locks(Last(g + Zeros(2)))
    ensures var u := Run(d, Zeros(2));
            !u.decoding && u.shifter == Last(g + Zeros(2)) && u.emitted == e + [(b.frame, 4.0 * b.amplitude)]
  {
    hide TakeBit, Last, Below, Locks, Run;
    NothingRun(d);
    RunPush(d, [], 0.0);
    assert [] + [0.0] == [0.0] && [0.0] + [0.0] == Zeros(2) && g + [0.0] + [0.0] == g + Zeros(2);
    BusyStep(d, g, b.amplitude, 0.0);
    var m := Run(d, [0.0]);
    RunPush(d, [0.0], 0.0);
    LastPush(g + [0.0], 0.0);
    CountKept(m.(decoding := false, emitted := m.emitted + [(m.frame, m.amp)]), m.prev > 0.0);
  }

  lemma {:induction false} SilentRun(d: Demod, g: seq<real>, n: nat)
    requires !d.decoding && d.shifter == Last(g) && forall k :: 1 <= k <= n ==> !Locks(Last(g + Zeros(k)))
    ensures var u := Run(d, Zeros(n)); !u.decoding && u.shifter == Last(g + Zeros(n)) && u.emitted == d.emitted
    decreases n
  {
    hide Process, Last, Locks, Run;
    if n == 0 {
      assert g + Zeros(0) == g && Zeros(0) == [];
      NothingRun(d);
    } else {
      SilentRun(d, g, n - 1);
      assert Zeros(n) == Zeros(n - 1) + [0.0];
      assert g + Zeros(n - 1) + [0.0] == g + Zeros(n);
      RunPush(d, Zeros(n - 1), 0.0);
      IdleStep(Run(d, Zeros(n - 1)), g + Zeros(n - 1), 0.0);
    }
  }

  lemma SilenceIsQuiet(g: seq<real>, n: nat)
    requires n >= 16
    ensures Quiet(g + Zeros(n))
  {
    hide Last;
    forall i | 1 <= i < WINDOW
      ensures Last(g + Zeros(n))[i] == 0.0
    {
      LastIsSample(g + Zeros(n), i);
    }
  }

  /** One burst: its frame is emitted once, with four times its amplitude, and the demodulator is idle again. */
  lemma BurstRun(d: Demod, h: seq<real>, b: Burst)
    requires Idle(d, h) && GoodBurst(b)
    ensures Idle(Run(d, Samples(b)), h + Samples(b))
    ensures Run(d, Samples(b)).emitted == d.emitted + [(b.frame, 4.0 * b.amplitude)]
  {
    hide Last, Below, Run, Locks, Quiet, Keyed, Chips, MsbBits, GoodFrame, Complete, Zeros;
    var a, bits := b.amplitude, AllMsbBits(b.frame);
    var p, q := Keyed(PULSES, a), Keyed(Chips(bits), a);
    DataRun(d, h, b);
    FrameFits(b.frame);
    var g, s := h + p + q, Run(d, p + q);
    forall k | 2 <= k <= b.silence
      ensures !Locks(Last(g + Zeros(k)))
    {
      TailNeverLocks(h + p, bits, a, k);
    }
    HandOver(s, g, b, d.emitted);
    var u := Run(s, Zeros(2));
    forall k | 1 <= k <= b.silence - 2
      ensures !Locks(Last(g + Zeros(2) + Zeros(k)))
    {
      ZerosJoin(g, 2, k);
    }
    SilentRun(u, g + Zeros(2), b.silence - 2);
    ZerosJoin(g, 2, b.silence - 2);
    RunAppend(s, Zeros(2), Zeros(b.silence - 2));
    ZerosJoin([], 2, b.silence - 2);
    assert [] + Zeros(2) == Zeros(2) && [] + Zeros(b.silence) == Zeros(b.silence);
    RunAppend(d, p + q, Zeros(b.silence));
    assert h + Samples(b) == g + Zeros(b.silence);
    SilenceIsQuiet(g, b.silence);
  }

  lemma ZerosJoin(g: seq<real>, m: nat, n: nat)
    ensures g + Zeros(m) + Zeros(n) == g + Zeros(m + n)
  {
  }

  // ----- a burst while another frame is being decoded

  /** Decoding alone has gone on: the strength held is the same, and at most the frame in hand was handed over. */
  predicate WentOn(d: Demod, r: Demod) {
    && r.amp == d.amp && (d.decoding || !r.decoding) && d.emitted <= r.emitted
    && (r.emitted == d.emitted ||
        (d.decoding && !r.decoding && |r.emitted| == |d.emitted| + 1 && r.emitted[|d.emitted|].1 == d.amp
         && d.frame <= r.emitted[|d.emitted|].0))
    && (r.decoding ==> d.frame <= r.frame && r.emitted == d.emitted)
  }

  lemma DecodeGoesOn(d: Demod, x: real)
    ensures WentOn(d, Decode(d, x))
  {
    if d.decoding && d.sampleCount % 2 == 1 {
      var t := if d.bitCount >= d.msgLen then d.(decoding := false, emitted := d.emitted + [(d.frame, d.amp)]) else d;
      CountKept(t, d.prev > x);
    }
  }

  lemma GoesOnAgain(d: Demod, m: Demod, r: Demod)
    requires WentOn(d, m) && WentOn(m, r)
    ensures WentOn(d, r)
  {
  }

  /** Without a lock, or with one no stronger than the frame being decoded, a sample only goes on decoding. */
  lemma StepGoesOn(d: Demod, h: seq<real>, x: real)
    requires d.shifter == Last(h)
    requires var w := Last(h + [x]); !Locks(w) || (Decode(d, x).decoding && Amp(w) <= d.amp)
    ensures Process(d, x) == Decode(d, x).(shifter := Last(h + [x]), prev := x)
    ensures WentOn(d, Process(d, x))
  {
    hide Locks, Last, Amp, Decode;
    LastPush(h, x);
    DecodeGoesOn(d, x);
  }

  lemma {:induction false} PreambleGoesOn(d: Demod, h: seq<real>, p: seq<real>)
    requires d.shifter == Last(h) && Quiet(h) && |p| <= 15
    ensures var r := Run(d, p); WentOn(d, r) && r.shifter == Last(h + p)
    decreases |p|
  {
    hide Process, Last, Quiet, Locks, WentOn;
    if p == [] {
      assert h + p == h;
      NothingGoesOn(d);
    } else {
      var n := |p| - 1;
      PreambleGoesOn(d, h, p[..n]);
      PartialPreamble(h, p);
      assert h + p == h + p[..n] + [p[n]];
      StepGoesOn(Run(d, p[..n]), h + p[..n], p[n]);
      GoesOnAgain(d, Run(d, p[..n]), Run(d, p));
    }
  }

  lemma NothingGoesOn(d: Demod)
    ensures WentOn(d, d)
  {
  }

  /** A whole preamble behind silence, stronger than the frame being decoded, starts a new frame. */
  lemma StrongerStarts(d: Demod, h: seq<real>, a: real) returns (e: seq<(seq<byte>, real)>)
    requires d.shifter == Last(h) && Quiet(h) && a > 0.0 && (d.decoding ==> 4.0 * a > d.amp)
    ensures WentOn(d, d.(decoding := false, emitted := e)) || e == d.emitted
    ensures Run(d, Keyed(PULSES, a)) == Run(d.(decoding := false, emitted := e), Keyed(PULSES, a))
  {
    hide Last, Quiet, Locks, Amp, Below, WentOn;
    var p := Keyed(PULSES, a);
    PreambleGoesOn(d, h, p[..15]);
    assert p == p[..15] + [0.0];
    var m := Run(d, p[..15]);
    RunPush(d, p[..15], 0.0);
    assert h + p[..15] + [0.0] == h + p;
    LastPush(h + p[..15], 0.0);
    WholePreamble(h, a);
    DecodeGoesOn(m, 0.0);
    GoesOnAgain(d, m, Decode(m, 0.0));
    e := Decode(m, 0.0).emitted;
    Freed(d, Decode(m, 0.0));
    StartsAnew(d, m, h + p, a);
    PreambleLocks(d.(decoding := false, emitted := e), h, a);
  }

  lemma Freed(d: Demod, r: Demod)
    requires WentOn(d, r)
    ensures WentOn(d, d.(decoding := false, emitted := r.emitted)) && r.amp == d.amp && (r.decoding ==> d.decoding)
  {
  }

  lemma StartsAnew(d: Demod, m: Demod, g: seq<real>, a: real)
    requires |m.shifter| == WINDOW && m.shifter[1..] + [0.0] == Last(g) && Locks(Last(g)) && Amp(Last(g)) == 4.0 * a
    requires !Decode(m, 0.0).decoding || 4.0 * a > Decode(m, 0.0).amp
    ensures Process(m, 0.0) == Start(d.(emitted := Decode(m, 0.0).emitted), 4.0 * a).(shifter := Last(g), prev := 0.0)
  {
    hide Last, Locks, Amp, Decode;
  }

  /** The stronger one wins: a burst behind silence is emitted, once and whole, whatever the demodulator was decoding, if it
      is idle or four pulses outweigh the strength held. Of the frame before it at most the part decoded so far comes out. */
  lemma StrongerWins(d: Demod, h: seq<real>, b: Burst) returns (e: seq<(seq<byte>, real)>)
    requires d.shifter == Last(h) && Quiet(h) && GoodBurst(b) && (d.decoding ==> 4.0 * b.amplitude > d.amp)
    ensures Idle(Run(d, Samples(b)), h + Samples(b))
    ensures Run(d, Samples(b)).emitted == e + [(b.frame, 4.0 * b.amplitude)]
    ensures d.emitted <= e && |e| <= |d.emitted| + if d.decoding then 1 else 0
    ensures |e| > |d.emitted| ==> d.frame <= e[|d.emitted|].0 && e[|d.emitted|].1 == d.amp
  {
    hide Last, Run, Quiet, Keyed, Chips, MsbBits, GoodFrame, Zeros;
    var a := b.amplitude;
    e := StrongerStarts(d, h, a);
    var i := d.(decoding := false, emitted := e);
    var rest := Keyed(Chips(AllMsbBits(b.frame)), a) + Zeros(b.silence);
    assert Samples(b) == Keyed(PULSES, a) + rest;
    RunAppend(d, Keyed(PULSES, a), rest);
    RunAppend(i, Keyed(PULSES, a), rest);
    BurstRun(i, h, b);
  }

  // ----- a weaker preamble

  /** Decoding goes on with the same frame, `n` samples further. */
  predicate Continues(d: Demod, r: Demod, n: nat) {
    && r.decoding && r.amp == d.amp && r.emitted == d.emitted && r.msgLen == d.msgLen
    && r.sampleCount == d.sampleCount + n && r.bitCount == d.bitCount + (d.sampleCount % 2 + n) / 2 && d.frame <= r.frame
  }

  lemma OneSampleFurther(d: Demod, m: Demod, x: real, n: nat)
    requires Continues(d, m, n) && n < 16 && d.bitCount >= 8 && d.bitCount + 8 <= d.msgLen
    ensures Continues(d, Decode(m, x), n + 1)
  {
    hide ShiftLeft;
    assert m.sampleCount % 2 == (d.sampleCount % 2 + n) % 2;
  }

  lemma {:induction false} WeakPreamble(d: Demod, h: seq<real>, p: seq<real>, a: real)
    requires d.shifter == Last(h) && Quiet(h) && d.decoding && a > 0.0 && 4.0 * a <= d.amp && p <= Keyed(PULSES, a)
    requires d.bitCount >= 8 && d.bitCount + 8 <= d.msgLen
    ensures Continues(d, Run(d, p), |p|) && Run(d, p).shifter == Last(h + p)
    decreases |p|
  {
    hide Process, Last, Quiet, Locks, Continues, Below, Amp, Decode, WentOn;
    if p == [] {
      assert h + p == h;
      NotYet(d);
    } else {
      var n := |p| - 1;
      WeakPreamble(d, h, p[..n], a);
      var m := Run(d, p[..n]);
      if n < 15 {
        PartialPreamble(h, p);
      } else {
        assert p == Keyed(PULSES, a);
        WholePreamble(h, a);
      }
      OneSampleFurther(d, m, p[n], n);
      StillDecoding(d, m, n);
      StillDecoding(d, Decode(m, p[n]), n + 1);
      assert h + p == h + p[..n] + [p[n]];
      StepGoesOn(m, h + p[..n], p[n]);
      WindowAside(d, Decode(m, p[n]), Last(h + p), p[n], n + 1);
    }
  }

  lemma NotYet(d: Demod)
    requires d.decoding
    ensures Continues(d, d, 0)
  {
  }

  lemma StillDecoding(d: Demod, m: Demod, n: nat)
    requires Continues(d, m, n)
    ensures m.decoding && m.amp == d.amp
  {
  }

  lemma WindowAside(d: Demod, m: Demod, w: seq<real>, x: real, n: nat)
    requires Continues(d, m, n)
    ensures Continues(d, m.(shifter := w, prev := x), n)
  {
  }

  /** A preamble no stronger than the frame being decoded starts nothing: the frame in hand is eight bits further. */
  lemma WeakerIsPassedOver(d: Demod, h: seq<real>, a: real)
    requires d.shifter == Last(h) && Quiet(h) && d.decoding && a > 0.0 && 4.0 * a <= d.amp
    requires d.bitCount >= 8 && d.bitCount + 8 <= d.msgLen
    ensures var r := Run(d, Keyed(PULSES, a));
            && r.decoding && r.amp == d.amp && r.bitCount == d.bitCount + 8 && r.msgLen == d.msgLen
            && d.frame <= r.frame && r.emitted == d.emitted
  {
    hide Last, Quiet, Run;
    WeakPreamble(d, h, Keyed(PULSES, a), a);
  }

  // ----- any sequence of bursts

  function Signal(bursts: seq<Burst>): seq<real> {
    if bursts == [] then [] else Signal(bursts[..|bursts| - 1]) + Samples(bursts[|bursts| - 1])
  }

  function Expected(bursts: seq<Burst>): seq<(seq<byte>, real)> {
    seq(|bursts|, i requires 0 <= i < |bursts| => (bursts[i].frame, 4.0 * bursts[i].amplitude))
  }

  lemma StartsIdle()
    ensures Idle(RESET, [])
  {
    hide Last;
    forall i | 0 <= i < WINDOW
      ensures Last([])[i] == 0.0 == Zeros(WINDOW)[i]
    {
      LastIsSample([], i);
    }
    assert Last([]) == Zeros(WINDOW);
  }

  lemma {:induction false} SignalRun(bursts: seq<Burst>)
    requires forall i :: 0 <= i < |bursts| ==> GoodBurst(bursts[i])
    ensures Idle(Run(RESET, Signal(bursts)), Signal(bursts))
    ensures Run(RESET, Signal(bursts)).emitted == Expected(bursts)
  {
    hide Idle, Samples, GoodBurst, Run;
    StartsIdle();
    if bursts == [] {
      NothingRun(RESET);
    } else {
      var n := |bursts| - 1;
      SignalRun(bursts[..n]);
      RunAppend(RESET, Signal(bursts[..n]), Samples(bursts[n]));
      BurstRun(Run(RESET, Signal(bursts[..n])), Signal(bursts[..n]), bursts[n]);
    }
  }

  /** The demodulator inverts the chip stream: every sequence of long and short frames, each at one positive
      amplitude and with at least sixteen silent samples behind it, is emitted frame by frame, in order,
      each with four times its amplitude, and nothing else is. */
  lemma DemodulatorInvertsWaveform(bursts: seq<Burst>)
    requires forall i :: 0 <= i < |bursts| ==> GoodBurst(bursts[i])
    ensures Run(RESET, Signal(bursts)).emitted == Expected(bursts)
  {
    hide *;
    SignalRun(bursts);
  }
}
