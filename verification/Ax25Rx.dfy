/** The AX.25 HDLC bit decoder (Ax25Decoder in src/apps/ui_aprs_rx.cpp): NRZI decoding, flag,
    abort and stuffed-zero recognition, octet assembly and the frame check. */
module Ax25Rx {
  import opened Bits
  import Crc16

  const MIN_LENGTH: nat := 18
  const MAX_LENGTH: nat := 256

  datatype Phase = WaitFlag | WaitFrame | InFrame

  /** The decoder's state; `delivered` is what the frame handler has been called with. */
  datatype Rx = Rx(phase: Phase, lastBit: bool, ones: nat, current: byte, bitIndex: nat, buffer: seq<byte>,
                   delivered: seq<seq<byte>>, badFcs: nat, tooShort: nat)

  const RESET := Rx(WaitFlag, false, 0, 0, 0, [], [], 0, 0)

  function Abort(s: Rx): Rx {
    s.(phase := WaitFlag, current := 0, ones := 0, bitIndex := 0, buffer := [])
  }

  /** A closing flag: count the frame and, if its check sequence is right, deliver it. */
  function Close(s: Rx): Rx {
    if |s.buffer| < MIN_LENGTH then s.(tooShort := s.tooShort + 1, buffer := [])
    else if Crc16.FrameValid(s.buffer) then s.(delivered := s.delivered + [s.buffer], buffer := [])
    else s.(badFcs := s.badFcs + 1, buffer := [])
  }

  /** Shift a data bit into the octet being assembled, and store the octet when it is complete. */
  function Absorb(s: Rx, bit: bool): Rx {
    var t := s.(current := ShiftRight(s.current, bit), bitIndex := s.bitIndex + 1);
    if t.bitIndex < 8 then t
    else
      var u := t.(bitIndex := 0, phase := if t.phase == WaitFrame then InFrame else t.phase);
      if u.phase != InFrame then u
      else if |u.buffer| + 1 >= MAX_LENGTH then Abort(u)
      else u.(buffer := u.buffer + [u.current])
  }

  function Flag(s: Rx): Rx {
    s.(phase := WaitFrame, current := 0, ones := 0, bitIndex := 0,
       buffer := if s.phase == InFrame then s.buffer else [])
  }

  /** True when a decoded bit completes a flag that closes a frame. */
  predicate Closes(s: Rx, bit: bool) {
    !bit && s.ones == 6 && s.phase == InFrame
  }

  /** One bit after NRZI decoding. */
  function Parse(s: Rx, bit: bool): Rx {
    if bit then Absorb(s.(ones := if s.ones < 8 then s.ones + 1 else s.ones), true)
    else if s.ones > 6 then Abort(s)
    else if s.ones == 6 then Flag(s)
    else if s.ones == 5 then s.(ones := 0)
    else Absorb(s.(ones := 0), false)
  }

  function Decoded(s: Rx, bit: bool): Rx {
    if Closes(s, bit) then Close(Parse(s, bit)) else Parse(s, bit)
  }

  /** One line level: no transition is a one, a transition is a zero. */
  function Step(s: Rx, raw: bool): Rx {
    Decoded(s.(lastBit := raw), raw == s.lastBit)
  }

  function Run(s: Rx, raws: seq<bool>): Rx {
    if raws == [] then s else Step(Run(s, raws[..|raws| - 1]), raws[|raws| - 1])
  }

  lemma RunPush(s: Rx, raws: seq<bool>, raw: bool)
    ensures Run(s, raws + [raw]) == Step(Run(s, raws), raw)
  {
    assert (raws + [raw])[..|raws|] == raws;
  }

  lemma {:induction false} RunAppend(s: Rx, a: seq<bool>, b: seq<bool>)
    ensures Run(s, a + b) == Run(Run(s, a), b)
    decreases |b|
  {
    hide Step;
    if b == [] {
      assert a + b == a;
    } else {
      var n := |b| - 1;
      assert (a + b)[..|a| + n] == a + b[..n];
      RunAppend(s, a, b[..n]);
    }
  }

  // ----- what holds in every reachable state

  predicate Deliverable(frame: seq<byte>) {
    MIN_LENGTH <= |frame| < MAX_LENGTH && Crc16.FrameValid(frame)
  }

  /** The ranges of the counters and the buffer, and the promise about every delivered frame. */
  predicate Inv(s: Rx) {
    && s.ones <= 8
    && s.bitIndex < 8
    && |s.buffer| < MAX_LENGTH
    && (s.phase == InFrame <==> s.buffer != [])
    && (forall i :: 0 <= i < |s.delivered| ==> Deliverable(s.delivered[i]))
  }

  lemma DecodedKeepsInv(s: Rx, bit: bool)
    requires Inv(s)
    ensures Inv(Decoded(s, bit))
    ensures s.delivered <= Decoded(s, bit).delivered
  {
    hide ShiftRight;
  }

  /** Safety over every bit stream whatsoever: whatever is fed, from any state that satisfies the
      invariant (reset does), every frame ever delivered has 18 to 255 octets and a valid check
      sequence, and the octet buffer never overflows. */
  lemma {:induction false} EveryRunIsSafe(s: Rx, raws: seq<bool>)
    requires Inv(s)
    ensures Inv(Run(s, raws))
    ensures s.delivered <= Run(s, raws).delivered
  {
    if raws != [] {
      var n := |raws| - 1;
      EveryRunIsSafe(s, raws[..n]);
      var m := Run(s, raws[..n]);
      DecodedKeepsInv(m.(lastBit := raws[n]), raws[n] == m.lastBit);
    }
  }

  /** From a reset, in plain figures. */
  lemma EveryStreamIsSafe(raws: seq<bool>)
    ensures var t := Run(RESET, raws);
            && (forall i :: 0 <= i < |t.delivered| ==> 18 <= |t.delivered[i]| <= 255 && Crc16.FrameValid(t.delivered[i]))
            && |t.buffer| <= 255 && t.bitIndex < 8
  {
    hide Run, Crc16.FrameValid;
    ResetIsSafe();
    EveryRunIsSafe(RESET, raws);
  }

  lemma ResetIsSafe()
    ensures Inv(RESET)
  {
  }

  // ----- the decoder as the program writes it

  /** ax25_frame_valid. */
  method FrameIsValid(frame: seq<byte>) returns (ok: bool)
    ensures ok == Crc16.FrameValid(frame)
  {
    if |frame| < 2 {
      return false;
    }
    var crc := new Crc16.Engine();
    crc.ProcessBytes(frame);
    ok := crc.remainder == Crc16.RESIDUE;
  }

  /** ax25_fcs. */
  method FrameCheckSequence(data: seq<byte>) returns (fcs: bv16)
    ensures fcs == Crc16.Fcs(data)
  {
    var crc := new Crc16.Engine();
    crc.ProcessBytes(data);
    fcs := crc.Checksum();
  }

  class Ax25Decoder {
    var phase: Phase
    var lastBit: bool
    var onesCount: nat
    var currentByte: byte
    var bitIndex: nat
    const buffer: array<byte>
    var bufferSize: nat
    var framesValid: nat
    var framesBadFcs: nat
    var framesTooShort: nat
    var bitsFed: nat
    /** The frames the handler has been called with, in order. */
    var delivered: seq<seq<byte>>

    ghost predicate Valid()
      reads this, buffer
    {
      && buffer.Length == MAX_LENGTH
      && bufferSize < MAX_LENGTH
      && framesValid == |delivered|
      && Inv(Value())
    }

    ghost function Value(): Rx
      reads this, buffer
      requires bufferSize <= buffer.Length
    {
      Rx(phase, lastBit, onesCount, currentByte, bitIndex, buffer[..bufferSize], delivered, framesBadFcs, framesTooShort)
    }

    constructor ()
      ensures Valid() && Value() == RESET && bitsFed == 0
      ensures fresh(buffer)
    {
      phase, lastBit, onesCount, currentByte, bitIndex, bufferSize := WaitFlag, false, 0, 0, 0, 0;
      buffer := new byte[MAX_LENGTH];
      framesValid, framesBadFcs, framesTooShort, bitsFed, delivered := 0, 0, 0, 0, [];
    }

    /** Clears the decode state; the counters survive. */
    method Reset()
      requires Valid()
      modifies this
      ensures Valid()
      ensures Value() == Abort(old(Value())).(lastBit := false)
      ensures framesValid == old(framesValid) && bitsFed == old(bitsFed) && delivered == old(delivered)
    {
      phase, lastBit, onesCount, currentByte, bitIndex, bufferSize := WaitFlag, false, 0, 0, 0, 0;
    }

    method AbortFrame()
      requires buffer.Length == MAX_LENGTH && bufferSize <= MAX_LENGTH
      modifies this
      ensures bufferSize == 0 && Value() == Abort(old(Value()))
      ensures framesValid == old(framesValid) && bitsFed == old(bitsFed) && delivered == old(delivered)
    {
      phase, currentByte, onesCount, bitIndex, bufferSize := WaitFlag, 0, 0, 0, 0;
    }

    /** NRZI, flags, aborts, destuffing and octet assembly; true when the bit closed a frame. */
    method ParseBit(rawBit: bool) returns (done: bool)
      requires Valid()
      modifies this, buffer
      ensures bufferSize < MAX_LENGTH
      ensures var before := old(Value()).(lastBit := rawBit); var bit := rawBit == old(lastBit);
              Value() == Parse(before, bit) && done == Closes(before, bit)
      ensures framesValid == old(framesValid) && bitsFed == old(bitsFed) && delivered == old(delivered)
    {
      hide ShiftRight, Absorb, Crc16.FrameValid;
      var decodedBit := rawBit == lastBit;
      lastBit := rawBit;

      if decodedBit {
        if onesCount < 8 {
          onesCount := onesCount + 1;
        }
      } else {
        if onesCount > 6 {
          AbortFrame();
          return false;
        } else if onesCount == 6 {
          done := false;
          if phase == InFrame {
            done := true;
          } else {
            bufferSize := 0;
          }
          phase, currentByte, onesCount, bitIndex := WaitFrame, 0, 0, 0;
          return;
        } else if onesCount == 5 {
          onesCount := 0;
          return false;
        } else {
          onesCount := 0;
        }
      }

      StoreBit(decodedBit);
      return false;
    }

    /** The tail of parse_bit: octets arrive least significant bit first. */
    method StoreBit(bit: bool)
      requires buffer.Length == MAX_LENGTH && bufferSize < MAX_LENGTH
      modifies this, buffer
      ensures bufferSize < MAX_LENGTH
      ensures Value() == Absorb(old(Value()), bit)
      ensures framesValid == old(framesValid) && bitsFed == old(bitsFed) && delivered == old(delivered)
    {
      hide ShiftRight;
      var shifted := ShiftRight(currentByte, bit);
      currentByte := shifted;
      bitIndex := bitIndex + 1;
      ghost var before := buffer[..bufferSize];

      if bitIndex >= 8 {
        bitIndex := 0;
        if phase == WaitFrame {
          phase := InFrame;
        }
        if phase == InFrame {
          if bufferSize + 1 >= MAX_LENGTH {
            AbortFrame();
          } else {
            buffer[bufferSize] := shifted;
            bufferSize := bufferSize + 1;
            assert buffer[..bufferSize] == before + [shifted];
          }
        }
      }
    }

    method FeedBit(rawBit: bool)
      requires Valid()
      modifies this, buffer
      ensures Valid()
      ensures Value() == Step(old(Value()), rawBit)
      ensures bitsFed == old(bitsFed) + 1
    {
      hide ShiftRight, Crc16.FrameValid, Absorb;
      DecodedKeepsInv(Value().(lastBit := rawBit), rawBit == lastBit);
      bitsFed := bitsFed + 1;
      var done := ParseBit(rawBit);
      if !done {
        return;
      }
      if bufferSize < MIN_LENGTH {
        framesTooShort := framesTooShort + 1;
      } else {
        var ok := FrameIsValid(buffer[..bufferSize]);
        if ok {
          framesValid := framesValid + 1;
          delivered := delivered + [buffer[..bufferSize]];
        } else {
          framesBadFcs := framesBadFcs + 1;
        }
      }
      bufferSize := 0;
    }

    method FeedBits(bits: seq<bool>)
      requires Valid()
      modifies this, buffer
      ensures Valid()
      ensures Value() == Run(old(Value()), bits)
      ensures bitsFed == old(bitsFed) + |bits|
    {
      for i := 0 to |bits|
        invariant Valid()
        invariant Value() == Run(old(Value()), bits[..i])
        invariant bitsFed == old(bitsFed) + i
      {
        assert bits[..i + 1] == bits[..i] + [bits[i]];
        RunPush(old(Value()), bits[..i], bits[i]);
        FeedBit(bits[i]);
      }
      assert bits[..|bits|] == bits;
    }
  }
}
