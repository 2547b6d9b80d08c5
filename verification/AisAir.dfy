/** AIS through the air: the transmission build_air_bits makes (src/apps/ais_app.cpp), sliced without error, decoded and put
    together by the packet builder (PacketBuilder and BitPattern in src/dsp/protocol.hpp, as configured by ais::Decoder). */
module AisAir {
  import opened Bits
  import opened Ais
  import Crc16

  // ----- the packet builder

  /** The newest bits; of the 64 that are kept, no pattern reads more than sixteen. */
  type History = h: seq<bool> | |h| == 16 witness seq(16, _ => false)

  const START_PATTERN := [false, true, false, true, false, true, false, true, false, true, true, true, true, true, true, false]
  const STUFFING_PATTERN := [true, true, true, true, true, false]
  const END_PATTERN := [false, true, true, true, true, true, true, false]

  function Gap(a: bool, b: bool): nat { if a != b then 1 else 0 }

  /** At how many places two stretches differ. */
  function Distance(a: seq<bool>, b: seq<bool>): nat
    requires |a| == |b|
  {
    if a == [] then 0 else Distance(a[..|a| - 1], b[..|b| - 1]) + Gap(a[|a| - 1], b[|b| - 1])
  }

  datatype Builder = Builder(history: History, inPayload: bool, packet: seq<bool>, emitted: seq<seq<bool>>, truncated: nat)

  const RESET := Builder(seq(16, _ => false), false, [], [], 0)

  function Shifted(h: History, bit: bool): History { h[1..] + [bit] }

  predicate Starts(h: History) { Distance(h, START_PATTERN) <= 1 }

  predicate IsStuffing(h: History) { h[10..] == STUFFING_PATTERN }

  predicate Ends(h: History) { h[8..] == END_PATTERN }

  function Added(packet: seq<bool>, bit: bool): seq<bool> { if |packet| < CAPACITY then packet + [bit] else packet }

  function Execute(b: Builder, bit: bool): Builder {
    var h := Shifted(b.history, bit);
    if !b.inPayload then b.(history := h, inPayload := Starts(h))
    else
      var p := if IsStuffing(h) then b.packet else Added(b.packet, bit);
      if Ends(h) then b.(history := h, inPayload := false, packet := [], emitted := b.emitted + [p])
      else if |p| >= CAPACITY then b.(history := h, inPayload := false, packet := [], truncated := b.truncated + 1)
      else b.(history := h, packet := p)
  }

  function Run(b: Builder, bits: seq<bool>): Builder {
    if bits == [] then b else Execute(Run(b, bits[..|bits| - 1]), bits[|bits| - 1])
  }

  lemma RunPush(b: Builder, bits: seq<bool>, bit: bool)
    ensures Run(b, bits + [bit]) == Execute(Run(b, bits), bit)
  {
    assert (bits + [bit])[..|bits|] == bits;
  }

  lemma {:induction false} RunAppend(b: Builder, x: seq<bool>, y: seq<bool>)
    ensures Run(b, x + y) == Run(Run(b, x), y)
    decreases |y|
  {
    hide Execute;
    if y == [] {
      assert x + y == x;
    } else {
      var n := |y| - 1;
      assert (x + y)[..|x| + n] == x + y[..n];
      RunAppend(b, x, y[..n]);
    }
  }

  class PacketBuilder {
    var history: History
    var inPayload: bool
    var packet: seq<bool>
    /** The packets the handler has been called with. */
    var emitted: seq<seq<bool>>
    var truncated: nat

    ghost function Value(): Builder
      reads this
    {
      Builder(history, inPayload, packet, emitted, truncated)
    }

    constructor ()
      ensures Value() == RESET
    {
      history, inPayload, packet, emitted, truncated := seq(16, _ => false), false, [], [], 0;
    }

    method ResetState()
      modifies this
      ensures Value() == old(Value()).(inPayload := false, packet := [])
    {
      inPayload, packet := false, [];
    }

    method TakeBit(bit: bool)
      modifies this
      ensures Value() == Execute(old(Value()), bit)
    {
      hide Starts, IsStuffing, Ends;
      history := Shifted(history, bit);
      if !inPayload {
        if Starts(history) {
          inPayload := true;
        }
      } else {
        if !IsStuffing(history) {
          packet := Added(packet, bit);
        }
        if Ends(history) {
          emitted := emitted + [packet];
          ResetState();
        } else if |packet| >= CAPACITY {
          truncated := truncated + 1;
          ResetState();
        }
      }
    }
  }

  // ----- what is sent

  const FLAG := [false, true, true, true, true, true, true, false]

  function Training(n: nat): (r: seq<bool>)
    ensures |r| == n
  {
    seq(n, i requires 0 <= i < n => i % 2 == 1)
  }

  /** The bits of a transmission, and its line levels. */
  function AirFrame(payload: seq<byte>, training: nat): seq<bool> {
    Training(training) + FLAG + Stuffed(PayloadAndFcsBits(payload)) + FLAG
  }

  function AirBits(payload: seq<byte>, training: nat): (r: seq<bool>)
    ensures |r| == |AirFrame(payload, training)|
  {
    Encoded(AirFrame(payload, training))
  }

  method BuildAirBits(payload: seq<byte>, training: nat) returns (levels: seq<bool>)
    ensures levels == AirBits(payload, training)
  {
    hide Encoded, PayloadAndFcsBits, Stuffed;
    var bits := [];
    for i := 0 to training
      invariant bits == Training(i)
    {
      bits := bits + [i % 2 == 1];
    }
    bits := bits + FLAG;
    var stuffed := HdlcStuff(PayloadAndFcsBits(payload));
    bits := bits + stuffed;
    bits := bits + FLAG;
    levels := NrziEncode(bits);
  }

  // ----- the history

  /** The sixteen newest bits behind some, when `before` came in front. */
  function Newest(before: History, bits: seq<bool>): History { (before + bits)[|bits|..] }

  lemma NewestPush(before: History, bits: seq<bool>, bit: bool)
    ensures Newest(before, bits + [bit]) == Shifted(Newest(before, bits), bit)
  {
  }

  lemma NewestTail(before: History, bits: seq<bool>, k: nat)
    requires k <= 16
    ensures Newest(before, bits)[16 - k..] == (before + bits)[16 + |bits| - k..]
  {
  }

  // ----- no start in front of the end of the flag

  /** The eight newest bits tell: at two places or more they differ from a flag. */
  predicate FarFromFlag(w: seq<bool>)
    requires |w| == 8
  {
    Gap(w[0], false) + Gap(w[1], true) + Gap(w[2], true) + Gap(w[3], true) + Gap(w[4], true) + Gap(w[5], true) +
    Gap(w[6], true) + Gap(w[7], false) >= 2
  }

  lemma {:induction false} DistanceEight(a: seq<bool>, b: seq<bool>)
    requires |a| == 16 && |b| == 16
    ensures Distance(a, b) == Distance(a[..8], b[..8]) + Gap(a[8], b[8]) + Gap(a[9], b[9]) + Gap(a[10], b[10]) +
            Gap(a[11], b[11]) + Gap(a[12], b[12]) + Gap(a[13], b[13]) + Gap(a[14], b[14]) + Gap(a[15], b[15])
  {
    hide Gap;
    DistanceTwo(a, b, 16);
    DistanceTwo(a, b, 14);
    DistanceTwo(a, b, 12);
    DistanceTwo(a, b, 10);
    assert a[..16] == a && b[..16] == b;
  }

  lemma DistanceTwo(a: seq<bool>, b: seq<bool>, n: nat)
    requires |a| == |b| && 2 <= n <= |a|
    ensures Distance(a[..n], b[..n]) == Distance(a[..n - 2], b[..n - 2]) + Gap(a[n - 2], b[n - 2]) + Gap(a[n - 1], b[n - 1])
  {
    hide Gap;
    assert a[..n][..n - 1] == a[..n - 1] && b[..n][..n - 1] == b[..n - 1];
    assert a[..n - 1][..n - 2] == a[..n - 2] && b[..n - 1][..n - 2] == b[..n - 2];
  }

  lemma FarDoesNotStart(h: History)
    requires FarFromFlag(h[8..])
    ensures !Starts(h)
  {
    hide Distance, Gap;
    DistanceEight(h, START_PATTERN);
    var w := h[8..];
    assert w[0] == h[8] && w[1] == h[9] && w[2] == h[10] && w[3] == h[11] && w[4] == h[12] && w[5] == h[13] && w[6] == h[14] &&
           w[7] == h[15];
  }

  lemma {:induction false} SameIsNear(a: seq<bool>)
    ensures Distance(a, a) == 0
  {
    if a != [] {
      SameIsNear(a[..|a| - 1]);
    }
  }

  /** Eight bits out of alternating ones. */
  lemma AlternatingIsFar(w: seq<bool>)
    requires |w| == 8 && forall i :: 0 <= i < 7 ==> w[i] != w[i + 1]
    ensures FarFromFlag(w)
  {
    assert w[0] != w[1] && w[1] != w[2] && w[2] != w[3] && w[3] != w[4] && w[4] != w[5] && w[5] != w[6] && w[6] != w[7];
  }

  /** What stands in front of a transmission: silence since the reset, or the flag of the one before. */
  predicate Rested(w: seq<bool>) { |w| == 8 && (w == FLAG || w == seq(8, _ => false)) }

  /** The line of a transmission as it is decoded: its first bit may be wrong, for the level in front of it is not its own. */
  predicate IsTraining(t: seq<bool>) {
    |t| >= 10 && |t| % 2 == 0 && forall i :: 1 <= i < |t| ==> t[i] == (i % 2 == 1)
  }

  lemma EarlyBits(before: seq<bool>, t: seq<bool>, k: nat)
    requires |before| == 8 && |t| >= 10 && k <= 8
    ensures var w := (before + t)[k..k + 8]; forall i :: 0 <= i < 8 ==> w[i] == if k + i < 8 then before[k + i] else t[k + i - 8]
  {
  }

  /** Behind a flag or silence, the first bits of the training. */
  lemma FirstBitsAreFar(w: seq<bool>, before: seq<bool>, t: seq<bool>, k: nat)
    requires Rested(before) && IsTraining(t) && 1 <= k <= 8 && |w| == 8
    requires forall i :: 0 <= i < 8 ==> w[i] == if k + i < 8 then before[k + i] else t[k + i - 8]
    ensures FarFromFlag(w)
  {
    assert t[1] && !t[2] && t[3] && !t[4] && t[5] && !t[6] && t[7];
    if k == 1 {
      assert w[6] == before[7] && !w[6];
      assert before == FLAG ==> w[0];
      assert before != FLAG ==> !w[1] && !w[2];
    } else if k == 2 {
      assert !w[5] && w[7];
    } else if k == 3 {
      assert !w[4] && w[5] == t[0] && w[6] && !w[7];
      assert before == FLAG ==> w[0];
      assert before != FLAG ==> !w[1] && !w[2];
    } else if k == 4 {
      assert !w[3] && w[7];
    } else if k == 5 {
      assert !w[2] && !w[5];
    } else if k == 6 {
      assert !w[1] && w[7];
    } else if k == 7 {
      assert !w[3] && !w[5];
    } else {
      assert !w[2] && !w[4];
    }
  }

  lemma EarlyIsFar(before: seq<bool>, t: seq<bool>, k: nat)
    requires Rested(before) && IsTraining(t) && 1 <= k <= 8
    ensures FarFromFlag((before + t)[k..k + 8])
  {
    hide FarFromFlag;
    EarlyBits(before, t, k);
    FirstBitsAreFar((before + t)[k..k + 8], before, t, k);
  }

  lemma MiddleIsFar(before: seq<bool>, t: seq<bool>, k: nat)
    requires |before| == 8 && IsTraining(t) && 9 <= k <= |t|
    ensures FarFromFlag((before + t)[k..k + 8])
  {
    var w := (before + t)[k..k + 8];
    forall i | 0 <= i < 7
      ensures w[i] != w[i + 1]
    {
      assert w[i] == t[k + i - 8] && w[i + 1] == t[k + i + 1 - 8];
    }
    AlternatingIsFar(w);
  }

  lemma LateBits(t: seq<bool>, j: nat)
    requires IsTraining(t) && 1 <= j <= 7
    ensures var w := (t + FLAG)[|t| + j - 8..|t| + j];
            forall i :: 0 <= i < 8 ==> w[i] == if i + j < 8 then (i + j) % 2 == 1 else FLAG[i + j - 8]
  {
    var n := |t|;
    var w := (t + FLAG)[n + j - 8..n + j];
    forall i | 0 <= i < 8
      ensures w[i] == if i + j < 8 then (i + j) % 2 == 1 else FLAG[i + j - 8]
    {
      if i + j < 8 {
        assert w[i] == t[n + j - 8 + i];
        assert (n + j - 8 + i) % 2 == (i + j) % 2;
      }
    }
  }

  lemma LastBitsAreFar(w: seq<bool>, j: nat)
    requires |w| == 8 && 1 <= j <= 7 && forall i :: 0 <= i < 8 ==> w[i] == if i + j < 8 then (i + j) % 2 == 1 else FLAG[i + j - 8]
    ensures FarFromFlag(w)
  {
    if j == 1 {
      assert w[0] && !w[1];
    } else if j == 2 {
      assert !w[2] && !w[4];
    } else if j == 3 {
      assert w[0] && !w[1];
    } else if j == 4 {
      assert !w[2] && !w[4];
    } else if j == 5 {
      assert w[0] && !w[1];
    } else if j == 6 {
      assert !w[2] && w[7];
    } else {
      assert w[0] && !w[1];
    }
  }

  lemma LateIsFar(t: seq<bool>, j: nat)
    requires IsTraining(t) && 1 <= j <= 7
    ensures FarFromFlag((t + FLAG)[|t| + j - 8..|t| + j])
  {
    hide FarFromFlag, IsTraining;
    TrainingSize(t);
    LateBits(t, j);
    LastBitsAreFar((t + FLAG)[|t| + j - 8..|t| + j], j);
  }

  /** Between transmissions. */
  predicate Idle(b: Builder) { !b.inPayload && b.packet == [] && Rested(b.history[8..]) }

  /** No place in front of the end of the start flag looks like a start. */
  lemma HeadIsFar(before: History, t: seq<bool>, k: nat)
    requires Rested(before[8..]) && IsTraining(t) && 1 <= k <= |t| + 7
    ensures FarFromFlag(Newest(before, (t + FLAG)[..k])[8..])
  {
    hide FarFromFlag, Rested, IsTraining;
    var bits := (t + FLAG)[..k];
    SixteenPlus(before, bits, k);
    TrainingSize(t);
    if k <= 8 {
      EarlyIsFar(before[8..], t, k);
      assert (before + bits)[k + 8..k + 16] == (before[8..] + t)[k..k + 8];
    } else if k <= |t| {
      MiddleIsFar(before[8..], t, k);
      assert (before + bits)[k + 8..k + 16] == (before[8..] + t)[k..k + 8];
    } else {
      LateIsFar(t, k - |t|);
      assert (before + bits)[k + 8..k + 16] == (t + FLAG)[k - 8..k];
    }
  }

  lemma SixteenPlus(before: History, bits: seq<bool>, k: nat)
    requires |bits| == k
    ensures Newest(before, bits)[8..] == (before + bits)[k + 8..k + 16]
  {
  }

  lemma TrainingSize(t: seq<bool>)
    requires IsTraining(t)
    ensures |t| >= 10
  {
  }

  /** All through the training and the flag but its last bit, the builder keeps hunting. */
  lemma {:induction false} Hunting(b: Builder, t: seq<bool>, k: nat)
    requires Idle(b) && IsTraining(t) && k <= |t| + 7
    ensures Run(b, (t + FLAG)[..k]) == b.(history := Newest(b.history, (t + FLAG)[..k]))
    decreases k
  {
    hide Starts, FarFromFlag, Rested, IsTraining, IsStuffing, Ends;
    var all := t + FLAG;
    if k > 0 {
      Hunting(b, t, k - 1);
      assert all[..k] == all[..k - 1] + [all[k - 1]];
      RunPush(b, all[..k - 1], all[k - 1]);
      NewestPush(b.history, all[..k - 1], all[k - 1]);
      HeadIsFar(b.history, t, k);
      FarDoesNotStart(Newest(b.history, all[..k]));
    } else {
      assert all[..0] == [];
      assert Newest(b.history, []) == b.history;
    }
  }

  /** The last eight training bits and the flag are the start pattern. */
  lemma StartIsSent(before: History, t: seq<bool>)
    requires IsTraining(t)
    ensures Newest(before, t + FLAG) == START_PATTERN
  {
    var n := |t|;
    var h := Newest(before, t + FLAG);
    forall i | 0 <= i < 16
      ensures h[i] == START_PATTERN[i]
    {
      if i < 8 {
        assert h[i] == t[n - 8 + i];
        assert (n - 8 + i) % 2 == i % 2;
      } else {
        assert h[i] == FLAG[i - 8];
      }
    }
  }

  /** The start is found at the end of the flag, and nowhere before. */
  lemma StartFound(b: Builder, t: seq<bool>)
    requires Idle(b) && IsTraining(t)
    ensures Run(b, t + FLAG) == b.(history := START_PATTERN, inPayload := true)
  {
    hide Distance, Rested, IsStuffing, Ends, IsTraining, Newest, START_PATTERN;
    var all, n := t + FLAG, |t| + 7;
    Hunting(b, t, n);
    assert all == all[..n] + [all[n]];
    RunPush(b, all[..n], all[n]);
    NewestPush(b.history, all[..n], all[n]);
    StartIsSent(b.history, t);
    SameIsNear(START_PATTERN);
  }

  // ----- the payload

  // ----- a start with a wrong bit in its flag

  function FlagWithWrong(j: nat): (r: seq<bool>)
    requires j < 8
    ensures |r| == 8
  {
    FLAG[j := !FLAG[j]]
  }

  lemma StartsSum(h: History)
    ensures Starts(h) <==>
            Gap(h[0], false) + Gap(h[1], true) + Gap(h[2], false) + Gap(h[3], true) + Gap(h[4], false) + Gap(h[5], true) +
            Gap(h[6], false) + Gap(h[7], true) + Gap(h[8], false) + Gap(h[9], true) + Gap(h[10], true) + Gap(h[11], true) +
            Gap(h[12], true) + Gap(h[13], true) + Gap(h[14], true) + Gap(h[15], false) <= 1
  {
    hide Gap;
    var p := START_PATTERN;
    DistanceEight(h, p);
    DistanceTwo(h, p, 8);
    DistanceTwo(h, p, 6);
    DistanceTwo(h, p, 4);
    DistanceTwo(h, p, 2);
    assert h[..0] == [];
  }

  /** The newest sixteen bits once `m` bits of such a flag are in, behind enough training. */
  predicate IsWindow(h: History, j: nat, m: nat)
    requires j < 8 && 1 <= m <= 8
  {
    forall i :: 0 <= i < 16 ==> h[i] == if i + m < 16 then (i + m) % 2 == 1 else FlagWithWrong(j)[i + m - 16]
  }

  lemma OddWindow(h: History, j: nat, m: nat)
    requires j < 8 && (m == 1 || m == 3 || m == 5 || m == 7) && IsWindow(h, j, m)
    ensures !Starts(h)
  {
    hide Starts;
    StartsSum(h);
    if m == 1 {
      assert h[0] && !h[1] && h[2] && !h[3];
    } else if m == 3 {
      assert h[0] && !h[1] && h[2] && !h[3];
    } else if m == 5 {
      assert h[0] && !h[1] && h[2] && !h[3];
    } else {
      assert h[0] && !h[1] && h[2] && !h[3];
    }
  }

  lemma EvenWindow(h: History, j: nat, m: nat)
    requires j < 8 && (m == 2 || m == 4 || m == 6 || m == 8) && IsWindow(h, j, m)
    ensures Starts(h) <==> m == 8 || (m == 6 && (j == 0 || j == 5))
  {
    hide Starts;
    StartsSum(h);
    if m == 2 {
    } else if m == 4 {
    } else if m == 6 {
    } else {
    }
  }

  lemma WindowComes(before: History, t: seq<bool>, j: nat, m: nat)
    requires IsTraining(t) && |t| >= 18 && j < 8 && 1 <= m <= 8
    ensures IsWindow(Newest(before, t + FlagWithWrong(j)[..m]), j, m)
  {
    var n := |t|;
    var h := Newest(before, t + FlagWithWrong(j)[..m]);
    forall i | 0 <= i < 16
      ensures h[i] == if i + m < 16 then (i + m) % 2 == 1 else FlagWithWrong(j)[i + m - 16]
    {
      if i + m < 16 {
        assert h[i] == t[n + m - 16 + i];
        assert (n + m - 16 + i) % 2 == (i + m) % 2;
      } else {
        assert h[i] == FlagWithWrong(j)[i + m - 16];
      }
    }
  }

  lemma HuntStep(b: Builder, h: History, bit: bool)
    requires !b.inPayload
    ensures Execute(b.(history := h), bit) == b.(history := Shifted(h, bit), inPayload := Starts(Shifted(h, bit)))
  {
    hide Starts, IsStuffing, Ends;
  }

  /** One bit of such a flag. */
  lemma WrongFlagStep(b: Builder, t: seq<bool>, j: nat, m: nat)
    requires IsTraining(t) && |t| >= 18 && j < 8 && m < 8 && !b.inPayload
    requires Run(b, t + FlagWithWrong(j)[..m]) == b.(history := Newest(b.history, t + FlagWithWrong(j)[..m]))
    ensures Run(b, t + FlagWithWrong(j)[..m + 1]) ==
            b.(history := Newest(b.history, t + FlagWithWrong(j)[..m + 1]),
               inPayload := m == 7 || (m == 5 && (j == 0 || j == 5)))
  {
    hide *;
    var f := FlagWithWrong(j);
    var bits, h := t + f[..m], Newest(b.history, t + f[..m]);
    OneBitMore(t, f, m);
    RunPush(b, bits, f[m]);
    NewestPush(b.history, bits, f[m]);
    HuntStep(b, h, f[m]);
    WindowStarts(b.history, t, j, m + 1);
  }

  lemma OneBitMore(t: seq<bool>, f: seq<bool>, m: nat)
    requires m < |f|
    ensures t + f[..m + 1] == t + f[..m] + [f[m]]
  {
  }

  lemma WindowStarts(before: History, t: seq<bool>, j: nat, m: nat)
    requires IsTraining(t) && |t| >= 18 && j < 8 && 1 <= m <= 8
    ensures Starts(Newest(before, t + FlagWithWrong(j)[..m])) <==> m == 8 || (m == 6 && (j == 0 || j == 5))
  {
    hide *;
    WindowComes(before, t, j, m);
    if m == 1 || m == 3 || m == 5 || m == 7 {
      OddWindow(Newest(before, t + FlagWithWrong(j)[..m]), j, m);
    } else {
      EvenWindow(Newest(before, t + FlagWithWrong(j)[..m]), j, m);
    }
  }

  /** As long as the builder still hunts behind `m` bits of such a flag. */
  lemma {:induction false} WrongFlagRun(b: Builder, t: seq<bool>, j: nat, m: nat)
    requires Idle(b) && IsTraining(t) && |t| >= 18 && j < 8 && m <= (if j == 0 || j == 5 then 5 else 7)
    ensures Run(b, t + FlagWithWrong(j)[..m]) == b.(history := Newest(b.history, t + FlagWithWrong(j)[..m]))
    decreases m
  {
    hide IsTraining, FlagWithWrong, Rested, Execute, FLAG;
    if m == 0 {
      Hunting(b, t, |t|);
      assert t + FlagWithWrong(j)[..0] == t == (t + FLAG)[..|t|];
    } else {
      WrongFlagRun(b, t, j, m - 1);
      WrongFlagStep(b, t, j, m - 1);
    }
  }

  /** The start pattern may have one wrong bit. One wrong bit in the flag leaves the start where it is, at the end of the flag
      and nowhere before, except its first bit and its sixth: with either of them wrong, the start is found two bits early. */
  lemma StartWithWrongBit(b: Builder, t: seq<bool>, j: nat)
    requires Idle(b) && IsTraining(t) && |t| >= 18 && j < 8
    ensures var flag := FLAG[j := !FLAG[j]]; var early := j == 0 || j == 5;
            && (forall m :: 0 <= m < (if early then 6 else 8) ==> !Run(b, t + flag[..m]).inPayload)
            && Run(b, t + flag[..if early then 6 else 8]).inPayload
  {
    hide IsTraining, Rested, Execute;
    var early := j == 0 || j == 5;
    var last: nat := if early then 5 else 7;
    forall m | 0 <= m <= last
      ensures !Run(b, t + FlagWithWrong(j)[..m]).inPayload
    {
      WrongFlagRun(b, t, j, m);
    }
    WrongFlagRun(b, t, j, last);
    WrongFlagStep(b, t, j, last);
  }

  /** The five ones and the zero, read off the run of ones in front. */
  lemma {:induction false} OnesAtEnd(v: seq<bool>, n: nat)
    requires n <= |v|
    ensures TrailingOnes(v) >= n <==> forall i :: |v| - n <= i < |v| ==> v[i]
    decreases n
  {
    if n > 0 && v[|v| - 1] {
      var front := v[..|v| - 1];
      OnesAtEnd(front, n - 1);
      assert forall i :: 0 <= i < |front| ==> front[i] == v[i];
    }
  }

  lemma {:induction false} OnesBehindZero(v: seq<bool>, w: seq<bool>)
    requires v != [] && !v[|v| - 1]
    ensures TrailingOnes(v + w) == TrailingOnes(w)
    decreases |w|
  {
    if w == [] {
      assert v + w == v;
    } else {
      var n := |w| - 1;
      assert (v + w)[..|v| + n] == v + w[..n];
      OnesBehindZero(v, w[..n]);
    }
  }

  lemma StuffingIff(v: seq<bool>, bit: bool)
    requires |v| >= 16
    ensures var h: History := (v + [bit])[|v| + 1 - 16..]; IsStuffing(h) <==> !bit && TrailingOnes(v) >= 5
  {
    hide TrailingOnes;
    var w := v + [bit];
    var h := w[|v| + 1 - 16..];
    OnesAtEnd(v, 5);
    assert h[10..] == w[|v| - 5..];
    if !bit && TrailingOnes(v) >= 5 {
      assert w[|v| - 5..] == STUFFING_PATTERN;
    }
    if IsStuffing(h) {
      LastSix(v, bit, STUFFING_PATTERN);
    }
  }

  lemma LastSix(v: seq<bool>, bit: bool, p: seq<bool>)
    requires 5 <= |v| && |p| == 6 && (v + [bit])[|v| - 5..] == p
    ensures bit == p[5] && forall i :: |v| - 5 <= i < |v| ==> v[i] == p[i - (|v| - 5)]
  {
    var u := (v + [bit])[|v| - 5..];
    assert u[5] == bit;
    forall i | |v| - 5 <= i < |v|
      ensures v[i] == p[i - (|v| - 5)]
    {
      assert u[i - (|v| - 5)] == v[i];
    }
  }

  lemma LastEight(v: seq<bool>, bit: bool, p: seq<bool>)
    requires 7 <= |v| && |p| == 8 && (v + [bit])[|v| - 7..] == p
    ensures bit == p[7] && forall i :: |v| - 7 <= i < |v| ==> v[i] == p[i - (|v| - 7)]
  {
    var u := (v + [bit])[|v| - 7..];
    assert u[7] == bit;
    forall i | |v| - 7 <= i < |v|
      ensures v[i] == p[i - (|v| - 7)]
    {
      assert u[i - (|v| - 7)] == v[i];
    }
  }

  lemma EndsIff(v: seq<bool>, bit: bool)
    requires |v| >= 16 && TrailingOnes(v) <= 6
    ensures var h: History := (v + [bit])[|v| + 1 - 16..]; Ends(h) <==> !bit && TrailingOnes(v) == 6
  {
    hide TrailingOnes;
    var w := v + [bit];
    var h := w[|v| + 1 - 16..];
    OnesAtEnd(v, 6);
    OnesAtEnd(v, 7);
    assert h[8..] == w[|v| - 7..];
    if !bit && TrailingOnes(v) == 6 {
      assert !v[|v| - 7];
      assert w[|v| - 7..] == END_PATTERN;
    }
    if Ends(h) {
      LastEight(v, bit, END_PATTERN);
    }
  }

  /** Never seven ones, and six only at the end, behind which no zero has come. */
  predicate NoEnd(w: seq<bool>) {
    forall i :: 0 <= i <= |w| ==> TrailingOnes(w[..i]) <= (if i == |w| then 6 else 5)
  }

  lemma NoEndFront(w: seq<bool>, n: nat)
    requires NoEnd(w) && n <= |w|
    ensures NoEnd(w[..n])
  {
    hide TrailingOnes;
    forall i | 0 <= i <= n
      ensures TrailingOnes(w[..n][..i]) <= (if i == n then 6 else 5)
    {
      assert w[..n][..i] == w[..i];
      if i == |w| {
        assert w[..i] == w;
      }
    }
  }

  lemma {:induction false} DestuffedGrows(w: seq<bool>, n: nat)
    requires n <= |w|
    ensures |Destuffed(w[..n])| <= |Destuffed(w)|
    decreases |w|
  {
    if n == |w| {
      assert w[..n] == w;
    } else {
      var m := |w| - 1;
      assert w[..m][..n] == w[..n];
      DestuffedGrows(w[..m], n);
    }
  }

  /** Behind the start, the builder collects what the unstuffer keeps. */
  lemma {:induction false} PayloadRun(b: Builder, w: seq<bool>)
    requires b.inPayload && b.packet == [] && b.history == START_PATTERN && NoEnd(w) && |Destuffed(w)| < 2560
    ensures Run(b, w) == b.(history := Newest(START_PATTERN, w), packet := Destuffed(w))
    decreases |w|
  {
    hide NoEnd, IsStuffing, Ends, Starts, TrailingOnes;
    if w == [] {
      DestuffNothing();
      assert Newest(START_PATTERN, []) == START_PATTERN;
    } else {
      var n := |w| - 1;
      var front, bit := w[..n], w[n];
      NoEndFront(w, n);
      DestuffedGrows(w, n);
      PayloadRun(b, front);
      assert w == front + [bit];
      RunPush(b, front, bit);
      NewestPush(START_PATTERN, front, bit);
      DestuffPush(front, bit);
      NewestIsEnd(front, bit);
      var v := START_PATTERN + front;
      OnesBehindZero(START_PATTERN, front);
      OnesInFront(w, n);
      StuffingIff(v, bit);
      EndsIff(v, bit);
    }
  }

  /** The 2560th bit that is kept ends a packet that no flag has ended: it is counted as cut short, and not handed over. */
  lemma OverlongIsDropped(b: Builder, w: seq<bool>, bit: bool)
    requires b.inPayload && b.packet == [] && b.history == START_PATTERN && NoEnd(w + [bit])
    requires |Destuffed(w)| == 2559 && |Destuffed(w + [bit])| == 2560
    ensures var u := Run(b, w + [bit]);
            !u.inPayload && u.packet == [] && u.emitted == b.emitted && u.truncated == b.truncated + 1
  {
    hide NoEnd, IsStuffing, Ends, Starts, TrailingOnes, Run;
    var n := |w|;
    assert (w + [bit])[..n] == w;
    NoEndFront(w + [bit], n);
    PayloadRun(b, w);
    RunPush(b, w, bit);
    NewestPush(START_PATTERN, w, bit);
    DestuffPush(w, bit);
    NewestIsEnd(w, bit);
    var v := START_PATTERN + w;
    OnesBehindZero(START_PATTERN, w);
    OnesInFront(w + [bit], n);
    StuffingIff(v, bit);
    EndsIff(v, bit);
  }

  lemma OnesInFront(w: seq<bool>, n: nat)
    requires NoEnd(w) && n < |w|
    ensures TrailingOnes(w[..n]) <= 5
  {
  }

  lemma NewestIsEnd(front: seq<bool>, bit: bool)
    ensures var v := START_PATTERN + front; Newest(START_PATTERN, front + [bit]) == (v + [bit])[|v| + 1 - 16..]
  {
    assert START_PATTERN + (front + [bit]) == START_PATTERN + front + [bit];
  }

  // ----- the closing flag

  function SixOnes(bits: seq<bool>, n: nat): (r: seq<bool>)
    ensures |r| == |bits| + 1 + n
  {
    bits + [false] + seq(n, _ => true)
  }

  /** Up to the last bit of the closing flag, stuffed bits hold no end. */
  lemma {:induction false} ClosingRun(bits: seq<bool>, n: nat)
    requires n <= 6
    ensures var w := SixOnes(Stuffed(bits), n);
            NoEnd(w) && TrailingOnes(w) == n && Destuffed(w) == bits + [false] + seq(n, _ => true)
    decreases n
  {
    hide TrailingOnes, Destuffed, Stuffed, NoEnd;
    var s := Stuffed(bits);
    DestuffInvertsStuff(bits);
    if n == 0 {
      assert SixOnes(s, 0) == s + [false];
      DestuffPush(s, false);
      StuffedHasNoEnd(bits);
      NoEndPush(s, false);
      assert bits + [false] + [] == bits + [false];
    } else {
      ClosingRun(bits, n - 1);
      var w := SixOnes(s, n - 1);
      assert SixOnes(s, n) == w + [true];
      DestuffPush(w, true);
      NoEndPush(w, true);
      assert bits + [false] + seq(n, _ => true) == bits + [false] + seq(n - 1, _ => true) + [true];
    }
  }

  lemma NoEndPush(w: seq<bool>, bit: bool)
    requires NoEnd(w) && TrailingOnes(w) <= 5
    ensures NoEnd(w + [bit])
  {
    DestuffPush(w, bit);
    hide TrailingOnes;
    var u := w + [bit];
    forall i | 0 <= i <= |u|
      ensures TrailingOnes(u[..i]) <= (if i == |u| then 6 else 5)
    {
      if i < |w| {
        assert u[..i] == w[..i];
      } else if i == |w| {
        assert u[..i] == w;
      } else {
        assert u[..i] == u;
      }
    }
  }

  lemma StuffedHasNoEnd(bits: seq<bool>)
    ensures NoEnd(Stuffed(bits))
  {
    hide TrailingOnes, Stuffed;
    forall i | 0 <= i <= |Stuffed(bits)|
      ensures TrailingOnes(Stuffed(bits)[..i]) <= 5
    {
      ShortRuns(bits, i);
    }
  }

  lemma FlagHeadIs(bits: seq<bool>)
    ensures bits + [false] + seq(6, _ => true) == bits + FLAG_HEAD
    ensures SixOnes(bits, 6) + [false] == bits + FLAG
  {
    assert seq(6, _ => true) == [true, true, true, true, true, true];
  }

  /** A frame behind the start: its bits and seven of the flag's come out as one packet. */
  lemma FrameRun(b: Builder, bits: seq<bool>)
    requires b.inPayload && b.packet == [] && b.history == START_PATTERN && |bits| <= 2552
    ensures var u := Run(b, Stuffed(bits) + FLAG);
            Idle(u) && u.emitted == b.emitted + [bits + FLAG_HEAD] && u.truncated == b.truncated
  {
    hide Stuffed, NoEnd, IsStuffing, Ends, Starts, TrailingOnes, Destuffed, FLAG_HEAD;
    var w := SixOnes(Stuffed(bits), 6);
    ClosingRun(bits, 6);
    FlagHeadIs(bits);
    FlagHeadIs(Stuffed(bits));
    assert |bits + [false] + seq(6, _ => true)| == |bits| + 7;
    PayloadRun(b, w);
    RunPush(b, w, false);
    NewestPush(START_PATTERN, w, false);
    NewestIsEnd(w, false);
    var v := START_PATTERN + w;
    OnesBehindZero(START_PATTERN, w);
    StuffingIff(v, false);
    EndsIff(v, false);
    EndsIsFlag(Newest(START_PATTERN, w + [false]));
  }

  lemma EndsIsFlag(h: History)
    requires Ends(h)
    ensures Rested(h[8..])
  {
  }

  /** One transmission, as decoded: exactly one packet, the payload with its check sequence and the flag's first bits. */
  lemma TransmissionRun(b: Builder, t: seq<bool>, payload: seq<byte>)
    requires Idle(b) && IsTraining(t) && |payload| <= 317
    ensures var u := Run(b, t + FLAG + Stuffed(PayloadAndFcsBits(payload)) + FLAG);
            Idle(u) && u.emitted == b.emitted + [PacketBits(payload)] && u.truncated == b.truncated
  {
    hide Stuffed, Run, PayloadAndFcsBits, Idle, IsTraining;
    var bits := PayloadAndFcsBits(payload);
    StartFound(b, t);
    var a := Run(b, t + FLAG);
    NothingYet(b, a);
    FrameRun(a, bits);
    RunAppend(b, t + FLAG, Stuffed(bits) + FLAG);
    assert t + FLAG + Stuffed(bits) + FLAG == t + FLAG + (Stuffed(bits) + FLAG);
  }

  lemma NothingYet(b: Builder, a: Builder)
    requires Idle(b) && a == b.(history := START_PATTERN, inPayload := true)
    ensures a.inPayload && a.packet == [] && a.history == START_PATTERN
  {
  }

  // ----- the line

  datatype Transmission = Transmission(payload: seq<byte>, training: nat)

  function Line(all: seq<Transmission>): seq<bool> {
    if all == [] then [] else Line(all[..|all| - 1]) + AirBits(all[|all| - 1].payload, all[|all| - 1].training)
  }

  /** Levels decoded behind others: the first bit compares with the level in front. */
  lemma {:induction false} DecodedAppend(x: seq<bool>, y: seq<bool>)
    ensures Decoded(x + y) == Decoded(x) + DecodedBehind(Level(x), y)
    decreases |y|
  {
    if y == [] {
      assert x + y == x;
    } else {
      var n := |y| - 1;
      assert (x + y)[..|x| + n] == x + y[..n];
      DecodedAppend(x, y[..n]);
    }
  }

  function DecodedBehind(level: bool, levels: seq<bool>): (r: seq<bool>)
    ensures |r| == |levels|
  {
    if levels == [] then []
    else
      var n := |levels| - 1;
      DecodedBehind(level, levels[..n]) + [levels[n] == if n == 0 then level else levels[n - 1]]
  }

  lemma {:induction false} BehindIs(level: bool, levels: seq<bool>)
    requires levels != []
    ensures DecodedBehind(level, levels)[0] == (levels[0] == level)
    ensures DecodedBehind(level, levels)[1..] == Decoded(levels)[1..]
    decreases |levels|
  {
    var n := |levels| - 1;
    if n > 0 {
      BehindIs(level, levels[..n]);
    }
  }

  lemma BehindAirBits(level: bool, payload: seq<byte>, training: nat) returns (t: seq<bool>)
    requires training >= 10 && training % 2 == 0
    ensures IsTraining(t)
    ensures DecodedBehind(level, AirBits(payload, training)) == t + FLAG + Stuffed(PayloadAndFcsBits(payload)) + FLAG
  {
    hide Encoded, DecodedBehind, Decoded, Stuffed, PayloadAndFcsBits;
    var frame, levels := AirFrame(payload, training), AirBits(payload, training);
    DecoderInvertsEncoder(frame);
    BehindIs(level, levels);
    var d := DecodedBehind(level, levels);
    t := [d[0]] + Training(training)[1..];
    assert frame[1..] == Training(training)[1..] + FLAG + Stuffed(PayloadAndFcsBits(payload)) + FLAG;
    assert d == [d[0]] + frame[1..];
  }

  /** Any list of transmissions, with ten or more alternating training bits each: the builder hands over exactly their
      packets, in order. */
  lemma {:induction false} TransmissionsComeBack(all: seq<Transmission>)
    requires forall i :: 0 <= i < |all| ==> |all[i].payload| <= 317 && all[i].training >= 10 && all[i].training % 2 == 0
    ensures var u := Run(RESET, Decoded(Line(all)));
            && Idle(u) && u.truncated == 0 && |u.emitted| == |all|
            && forall i :: 0 <= i < |all| ==> u.emitted[i] == PacketBits(all[i].payload)
    decreases |all|
  {
    hide Decoded, DecodedBehind, Run, AirBits, Idle, IsTraining, PacketBits, PayloadAndFcsBits, Stuffed;
    if all == [] {
      DecodedNothing();
      StartsIdle();
    } else {
      var n := |all| - 1;
      TransmissionsComeBack(all[..n]);
      var front, last := Line(all[..n]), all[n];
      DecodedAppend(front, AirBits(last.payload, last.training));
      var t := BehindAirBits(Level(front), last.payload, last.training);
      RunAppend(RESET, Decoded(front), DecodedBehind(Level(front), AirBits(last.payload, last.training)));
      TransmissionRun(Run(RESET, Decoded(front)), t, last.payload);
    }
  }

  lemma DecodedNothing()
    ensures Decoded([]) == []
  {
  }

  lemma StartsIdle()
    ensures Run(RESET, []) == RESET && Idle(RESET)
  {
  }

  /** Exactly the transmissions that carry at least one octet are packets that check. */
  lemma EveryPayloadChecks(all: seq<Transmission>)
    requires forall i :: 0 <= i < |all| ==> |all[i].payload| <= 317 && all[i].training >= 10 && all[i].training % 2 == 0
    ensures var u := Run(RESET, Decoded(Line(all)));
            |u.emitted| == |all| && forall i :: 0 <= i < |all| ==> (CrcOk(u.emitted[i]) <==> all[i].payload != [])
  {
    hide Run, Decoded, Line, PacketBits, CrcOk;
    TransmissionsComeBack(all);
    forall i | 0 <= i < |all|
      ensures CrcOk(PacketBits(all[i].payload)) <==> all[i].payload != []
    {
      FittingPacket(all[i].payload);
    }
  }
}
