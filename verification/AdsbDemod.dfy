/** The Mode S pulse-position demodulator (AdsbDemod::process_one in src/apps/ui_adsb_rx.cpp) over exact reals. */
module AdsbDemod {
  import opened Bits

  const WINDOW: nat := 17
  const FRAME_BYTES: nat := 14
  const LONG: nat := 112
  const SHORT: nat := 56

  /** The octet being assembled. */
  datatype Register = Register(value: byte)

  function ShiftIn(r: Register, bit: bool): Register { Register(ShiftLeft(r.value, bit)) }

  /** The demodulator; `emitted` is what the frame handler has been called with. */
  datatype Demod = Demod(decoding: bool, sampleCount: nat, bitCount: nat, msgLen: nat, octet: Register, frame: seq<byte>,
                         amp: real, shifter: seq<real>, prev: real, emitted: seq<(seq<byte>, real)>)

  function Zeros(n: nat): (r: seq<real>)
    ensures |r| == n
  {
    seq(n, _ => 0.0)
  }

  const RESET := Demod(false, 0, 0, LONG, Register(0), [], 0.0, Zeros(WINDOW), 0.0, [])

  /** The shape of a preamble: four pulses, no sample where there should be none above the pulses beside it,
      and the quiet ones below a ninth of the pulses' sum. */
  predicate Locks(w: seq<real>)
    requires |w| == WINDOW
  {
    && w[0] < w[1] && w[1] > w[2] && w[2] < w[3] && w[3] > w[4]
    && w[4] < w[1] && w[5] < w[1] && w[6] < w[1] && w[7] < w[1]
    && w[8] > w[9] && w[9] < w[10] && w[10] > w[11]
    && w[5] < Amp(w) / 9.0 && w[6] < Amp(w) / 9.0 && w[12] < Amp(w) / 9.0 && w[13] < Amp(w) / 9.0 && w[14] < Amp(w) / 9.0
  }

  function Amp(w: seq<real>): real
    requires |w| == WINDOW
  {
    w[1] + w[3] + w[8] + w[10]
  }

  /** One more bit; every eighth one completes an octet, and the first octet decides the length. */
  function TakeBit(d: Demod, bit: bool): Demod {
    var t := d.(octet := ShiftIn(d.octet, bit), bitCount := d.bitCount + 1);
    if t.bitCount % 8 != 0 then t
    else
      t.(frame := if |t.frame| < FRAME_BYTES then t.frame + [t.octet.value] else t.frame,
         msgLen := if t.bitCount == 8 then Length(t.octet.value) else t.msgLen)
  }

  function Length(first: byte): nat { if first & 0x80 != 0 then LONG else SHORT }

  /** The decoding half of a sample. */
  function Decode(d: Demod, mag: real): Demod {
    if !d.decoding then d
    else if d.sampleCount % 2 == 0 then d.(sampleCount := d.sampleCount + 1)
    else
      var bit := d.prev > mag;
      var t := if d.bitCount >= d.msgLen then d.(decoding := false, emitted := d.emitted + [(d.frame, d.amp)]) else d;
      var u := TakeBit(t, bit);
      u.(sampleCount := d.sampleCount + 1)
  }

  /** A new frame. */
  function Start(d: Demod, amp: real): Demod {
    d.(decoding := true, amp := amp, sampleCount := 0, bitCount := 0, octet := Register(0), msgLen := LONG, frame := [])
  }

  /** The hunting half: a preamble starts a frame, if none is being decoded or it is stronger. */
  function Hunt(d: Demod): Demod
    requires |d.shifter| == WINDOW
  {
    if Locks(d.shifter) && (!d.decoding || Amp(d.shifter) > d.amp) then Start(d, Amp(d.shifter)) else d
  }

  function Process(d: Demod, mag: real): (r: Demod)
    requires |d.shifter| == WINDOW
    ensures |r.shifter| == WINDOW && r.shifter == d.shifter[1..] + [mag] && r.prev == mag
  {
    var t := Decode(d, mag);
    var u := t.(shifter := d.shifter[1..] + [mag]);
    Hunt(u).(prev := mag)
  }

  function Run(d: Demod, mags: seq<real>): (r: Demod)
    requires |d.shifter| == WINDOW
    ensures |r.shifter| == WINDOW
  {
    if mags == [] then d else Process(Run(d, mags[..|mags| - 1]), mags[|mags| - 1])
  }

  lemma RunPush(d: Demod, mags: seq<real>, mag: real)
    requires |d.shifter| == WINDOW
    ensures Run(d, mags + [mag]) == Process(Run(d, mags), mag)
  {
    assert (mags + [mag])[..|mags|] == mags;
  }

  lemma {:induction false} RunAppend(d: Demod, a: seq<real>, b: seq<real>)
    requires |d.shifter| == WINDOW
    ensures Run(d, a + b) == Run(Run(d, a), b)
    decreases |b|
  {
    hide Process;
    if b == [] {
      assert a + b == a;
    } else {
      var n := |b| - 1;
      assert (a + b)[..|a| + n] == a + b[..n];
      RunAppend(d, a, b[..n]);
    }
  }

  // ----- the demodulator as the program writes it

  class Demodulator {
    var decoding: bool
    var sampleCount: nat
    var bitCount: nat
    var msgLen: nat
    var octet: byte
    var frame: seq<byte>
    var amp: real
    const shifter: array<real>
    var prevMag: real
    var frames: nat
    /** The frames the handler has been called with, and their amplitudes. */
    var emitted: seq<(seq<byte>, real)>

    ghost predicate Valid()
      reads this
    {
      shifter.Length == WINDOW && frames == |emitted|
    }

    ghost function Value(): Demod
      reads this, shifter
    {
      Demod(decoding, sampleCount, bitCount, msgLen, Register(octet), frame, amp, shifter[..], prevMag, emitted)
    }

    constructor ()
      ensures Valid() && Value() == RESET && fresh(shifter)
    {
      decoding, sampleCount, bitCount, msgLen, octet, frame, amp := false, 0, 0, LONG, 0, [], 0.0;
      shifter := new real[WINDOW](_ => 0.0);
      prevMag, frames, emitted := 0.0, 0, [];
      new;
      assert shifter[..] == Zeros(WINDOW);
    }

    /** The bit behind an odd sample. */
    method PushBit(bit: bool)
      modifies this
      ensures Value() == TakeBit(old(Value()), bit)
      ensures frames == old(frames)
    {
      hide ShiftLeft;
      var shifted := ShiftLeft(octet, bit);
      octet := shifted;
      bitCount := bitCount + 1;
      if bitCount % 8 == 0 {
        if |frame| < FRAME_BYTES {
          frame := frame + [shifted];
        }
        if bitCount == 8 {
          msgLen := Length(shifted);
        }
      }
    }

    method DecodeSample(mag: real)
      requires Valid()
      modifies this
      ensures Valid() && Value() == Decode(old(Value()), mag)
    {
      hide TakeBit;
      if decoding {
        if sampleCount % 2 == 1 {
          var bit := prevMag > mag;
          if bitCount >= msgLen {
            emitted := emitted + [(frame, amp)];
            frames := frames + 1;
            decoding := false;
          }
          ghost var before := Value();
          PushBit(bit);
          CountKept(before, bit);
        }
        sampleCount := sampleCount + 1;
      }
    }

    method Shift(mag: real)
      requires Valid()
      modifies shifter
      ensures shifter[..] == old(shifter[..])[1..] + [mag]
    {
      for c := 0 to WINDOW - 1
        invariant forall k :: 0 <= k < c ==> shifter[k] == old(shifter[..])[k + 1]
        invariant forall k :: c <= k < WINDOW ==> shifter[k] == old(shifter[..])[k]
      {
        shifter[c] := shifter[c + 1];
      }
      shifter[WINDOW - 1] := mag;
    }

    method ProcessOne(mag: real)
      requires Valid()
      modifies this, shifter
      ensures Valid() && Value() == Process(old(Value()), mag)
    {
      hide Decode, Locks, Amp;
      DecodeSample(mag);
      Shift(mag);
      var w := shifter[..];
      if Locks(w) {
        var thisAmp := Amp(w);
        if !decoding || thisAmp > amp {
          decoding := true;
          amp := thisAmp;
          sampleCount, bitCount, octet, msgLen, frame := 0, 0, 0, LONG, [];
        }
      }
      prevMag := mag;
    }

    method ProcessMagnitudes(mags: seq<real>)
      requires Valid()
      modifies this, shifter
      ensures Valid() && Value() == Run(old(Value()), mags)
    {
      hide Process;
      for i := 0 to |mags|
        invariant Valid() && Value() == Run(old(Value()), mags[..i])
      {
        assert mags[..i + 1] == mags[..i] + [mags[i]];
        RunPush(old(Value()), mags[..i], mags[i]);
        ProcessOne(mags[i]);
      }
      assert mags[..|mags|] == mags;
    }
  }

  lemma CountKept(d: Demod, bit: bool)
    ensures TakeBit(d, bit).sampleCount == d.sampleCount && TakeBit(d, bit).emitted == d.emitted
    ensures TakeBit(d, bit).decoding == d.decoding && TakeBit(d, bit).shifter == d.shifter && TakeBit(d, bit).amp == d.amp
    ensures TakeBit(d, bit).prev == d.prev
  {
    hide ShiftLeft;
  }
}
