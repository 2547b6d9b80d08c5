/** The magnitude rate converter of the ADS-B receiver (MagnitudeResampler in src/apps/ui_adsb_rx.cpp), over exact
    reals: whatever the chunks, output number k is the input read at k input steps. */
module AdsbResample {

  /** Where output `k` is taken, in input samples. */
  function Position(step: real, k: nat): real { k as real * step }

  lemma PositionStep(step: real, k: nat)
    requires step > 0.0
    ensures Position(step, 0) == 0.0 && Position(step, k) >= 0.0 && Position(step, k + 1) == Position(step, k) + step
  {
  }

  lemma {:induction false} PositionsGrow(step: real, j: nat, k: nat)
    requires step > 0.0 && j <= k
    ensures Position(step, j) <= Position(step, k)
    decreases k
  {
    hide Position;
    if j < k {
      PositionStep(step, k - 1);
      PositionsGrow(step, j, k - 1);
    }
  }

  /** Between two neighbours. */
  function Blend(a: real, b: real, f: real): real { a + (b - a) * f }

  /** The input's straight-line graph at `p`, which lies in front of the last sample. */
  function ReadAt(input: seq<real>, p: real): real
    requires 0.0 <= p < (|input| - 1) as real
  {
    var i := p.Floor;
    Blend(input[i], input[i + 1], p - i as real)
  }

  /** What the converter has put out once `input` has gone in: one value for every position in front of the last
      sample. */
  predicate Tracks(step: real, input: seq<real>, emitted: seq<real>)
    requires step > 0.0
  {
    && (input == [] ==> emitted == [])
    && (input != [] ==> (|input| - 1) as real <= Position(step, |emitted|))
    && forall k :: 0 <= k < |emitted| ==>
         0.0 <= Position(step, k) < (|input| - 1) as real && emitted[k] == ReadAt(input, Position(step, k))
  }

  /** The converter's own fields between two samples. */
  predicate Held(step: real, input: seq<real>, emitted: seq<real>, primed: bool, frac: real, prev: real)
    requires step > 0.0
  {
    && primed == (input != [])
    && (primed ==> prev == input[|input| - 1] && frac == Position(step, |emitted|) - (|input| - 1) as real)
    && (!primed ==> frac == 0.0)
  }

  lemma NoLonger(step: real, input: seq<real>, e: seq<real>, o: seq<real>)
    requires step > 0.0 && Tracks(step, input, e) && Tracks(step, input, o)
    ensures |o| <= |e|
  {
    hide Position, ReadAt;
    var p := Position(step, |e|);
    assert |e| < |o| ==> p < (|input| - 1) as real;
  }

  /** The input alone decides the output: how it was cut into calls does not matter. */
  lemma ChunksDoNotMatter(step: real, input: seq<real>, e: seq<real>, o: seq<real>)
    requires step > 0.0 && Tracks(step, input, e) && Tracks(step, input, o)
    ensures e == o
  {
    hide Position, ReadAt;
    NoLonger(step, input, e, o);
    NoLonger(step, input, o, e);
  }

  /** No drift: after m > 0 input samples exactly the outputs at positions below m - 1 are there. */
  lemma OutputCount(step: real, input: seq<real>, emitted: seq<real>, k: nat)
    requires step > 0.0 && Tracks(step, input, emitted) && input != []
    ensures k < |emitted| <==> Position(step, k) < (|input| - 1) as real
  {
    hide ReadAt, Position;
    if k >= |emitted| {
      PositionsGrow(step, |emitted|, k);
    }
  }

  /** At a whole ratio the converter subsamples: every n-th input and nothing else. */
  lemma WholeRatioSubsamples(n: nat, input: seq<real>, emitted: seq<real>)
    requires n > 0 && Tracks(n as real, input, emitted)
    ensures forall k :: 0 <= k < |emitted| ==> 0 <= k * n < |input| && emitted[k] == input[k * n]
    ensures input != [] ==> (|emitted| - 1) * n < |input| - 1 <= |emitted| * n || (|input| == 1 && emitted == [])
  {
    forall k: nat | k < |emitted|
      ensures 0 <= k * n < |input| - 1 && emitted[k] == input[k * n]
    {
      WholePosition(n, k);
      assert Position(n as real, k) < (|input| - 1) as real;
    }
    WholePosition(n, |emitted|);
  }

  lemma WholePosition(n: nat, k: nat)
    ensures Position(n as real, k) == (k * n) as real && Position(n as real, k).Floor == k * n
  {
  }

  /** Output k lies on the straight line through the two input samples on either side of k steps: at the first of them when
      it falls there, and between the two otherwise. */
  lemma OutputIsOnTheLine(step: real, input: seq<real>, emitted: seq<real>, k: nat, i: nat)
    requires step > 0.0 && Tracks(step, input, emitted) && k < |emitted| && i as real <= k as real * step < (i + 1) as real
    ensures i + 1 < |input|
    ensures emitted[k] == input[i] * ((i + 1) as real - k as real * step) + input[i + 1] * (k as real * step - i as real)
    ensures input[i] <= input[i + 1] ==> input[i] <= emitted[k] <= input[i + 1]
    ensures input[i] >= input[i + 1] ==> input[i] >= emitted[k] >= input[i + 1]
  {
    hide Blend;
    var p := Position(step, k);
    assert p.Floor == i;
    BlendLies(input[i], input[i + 1], p - i as real);
    Weighted(input[i], input[i + 1], p - i as real);
  }

  lemma BlendLies(a: real, b: real, f: real)
    requires 0.0 <= f < 1.0
    ensures a <= b ==> a <= Blend(a, b, f) <= b
    ensures a >= b ==> a >= Blend(a, b, f) >= b
  {
    hide Blend, Part;
    BothWays(a, b, f);
    if a <= b {
      PartOf(b - a, f);
    }
    if a >= b {
      PartOf(a - b, f);
    }
  }

  function Part(d: real, f: real): real { d * f }

  lemma BothWays(a: real, b: real, f: real)
    ensures Blend(a, b, f) == a + Part(b - a, f) == a - Part(a - b, f)
  {
  }

  lemma PartOf(d: real, f: real)
    requires d >= 0.0 && 0.0 <= f < 1.0
    ensures 0.0 <= Part(d, f) <= d
  {
    PartIsPositive(d, f);
    PartIsPositive(d, 1.0 - f);
    assert Part(d, 1.0 - f) == d - Part(d, f);
  }

  lemma PartIsPositive(d: real, f: real)
    requires d >= 0.0 && f >= 0.0
    ensures Part(d, f) >= 0.0
  {
  }

  lemma Weighted(a: real, b: real, f: real)
    ensures Blend(a, b, f) == a * (1.0 - f) + b * f
  {
  }

  /** A further input sample changes no earlier reading. */
  lemma ReadPrefix(input: seq<real>, more: seq<real>, p: real)
    requires 0.0 <= p < (|input| - 1) as real
    ensures p < (|input + more| - 1) as real && ReadAt(input + more, p) == ReadAt(input, p)
  {
  }

  /** A reading in the newest interval. */
  lemma ReadNewest(input: seq<real>, cur: real, frac: real, p: real)
    requires input != [] && 0.0 <= frac < 1.0 && p == frac + (|input| - 1) as real
    ensures 0.0 <= p < (|input + [cur]| - 1) as real
    ensures ReadAt(input + [cur], p) == Blend(input[|input| - 1], cur, frac)
  {
    hide Blend;
    assert p.Floor == |input| - 1;
  }

  /** Rounds of the inner loop still to come. */
  function Rounds(step: real, frac: real): real
    requires step > 0.0
  {
    (1.0 - frac) / step
  }

  lemma OneRoundLess(step: real, frac: real)
    requires step > 0.0
    ensures Rounds(step, frac + step) == Rounds(step, frac) - 1.0
    ensures frac < 1.0 ==> Rounds(step, frac) > 0.0
  {
    assert (1.0 - (frac + step)) / step == (1.0 - frac) / step - step / step;
  }

  class MagnitudeResampler {
    var step: real
    var frac: real
    var prev: real
    var primed: bool
    var bypass: bool
    /** Everything in and out since the last reset. */
    ghost var input: seq<real>
    ghost var emitted: seq<real>

    ghost predicate Valid()
      reads this
    {
      && step > 0.0
      && if bypass then emitted == input
         else Tracks(step, input, emitted) && Held(step, input, emitted, primed, frac, prev)
    }

    constructor ()
      ensures Valid() && bypass && step == 1.0 && input == []
    {
      step, frac, prev, primed, bypass, input, emitted := 1.0, 0.0, 0.0, false, true, [], [];
    }

    method Reset()
      requires step > 0.0
      modifies this
      ensures Valid() && input == [] && emitted == [] && step == old(step) && bypass == old(bypass)
    {
      frac, prev, primed, input, emitted := 0.0, 0.0, false, [], [];
    }

    /** A rate that is not positive, or within a hertz of the other one, passes the samples through. */
    method SetRate(inputHz: real, outputHz: real)
      modifies this
      ensures Valid() && input == []
      ensures bypass <==> inputHz <= 0.0 || outputHz <= 0.0 || -1.0 <= inputHz - outputHz <= 1.0
      ensures !bypass ==> step == inputHz / outputHz
    {
      if inputHz <= 0.0 || outputHz <= 0.0 {
        bypass, step := true, 1.0;
      } else {
        var apart := if inputHz < outputHz then outputHz - inputHz else inputHz - outputHz;
        bypass, step := apart <= 1.0, inputHz / outputHz;
      }
      Reset();
    }

    /** One sample through the interpolator. */
    method ProcessOne(cur: real) returns (out: seq<real>)
      requires Valid() && !bypass
      modifies this
      ensures Valid() && step == old(step) && bypass == old(bypass)
      ensures input == old(input) + [cur] && emitted == old(emitted) + out
    {
      hide Position, ReadAt, Blend, Rounds;
      out := [];
      ghost var before := input;
      input := input + [cur];
      if !primed {
        prev, primed, frac := cur, true, 0.0;
        PositionStep(step, 0);
        return;
      }
      forall k | 0 <= k < |emitted|
        ensures 0.0 <= Position(step, k) < (|before| - 1) as real && emitted[k] == ReadAt(input, Position(step, k))
      {
        ReadPrefix(before, [cur], Position(step, k));
      }
      OneRoundLess(step, frac);
      while frac < 1.0
        invariant step == old(step) && prev == before[|before| - 1] && primed && !bypass && input == before + [cur]
        invariant emitted == old(emitted) + out
        invariant frac >= 0.0 && frac == Position(step, |emitted|) - (|before| - 1) as real
        invariant forall k :: 0 <= k < |emitted| ==>
                    0.0 <= Position(step, k) < |before| as real && emitted[k] == ReadAt(input, Position(step, k))
        decreases Rounds(step, frac)
      {
        ReadNewest(before, cur, frac, Position(step, |emitted|));
        PositionStep(step, |emitted|);
        OneRoundLess(step, frac);
        out := out + [Blend(prev, cur, frac)];
        emitted := emitted + [Blend(prev, cur, frac)];
        frac := frac + step;
      }
      frac := frac - 1.0;
      prev := cur;
    }

    method Process(samples: seq<real>) returns (out: seq<real>)
      requires Valid()
      modifies this
      ensures Valid() && step == old(step) && bypass == old(bypass)
      ensures input == old(input) + samples && emitted == old(emitted) + out
    {
      hide Tracks, Held;
      if bypass {
        out, input, emitted := samples, input + samples, emitted + samples;
        return;
      }
      out := [];
      for i := 0 to |samples|
        invariant Valid() && step == old(step) && bypass == old(bypass)
        invariant input == old(input) + samples[..i] && emitted == old(emitted) + out
      {
        var more := ProcessOne(samples[i]);
        out := out + more;
        assert samples[..i + 1] == samples[..i] + [samples[i]];
      }
      assert samples[..|samples|] == samples;
    }
  }
}
