/** Cutting a video envelope into lines (LineFramer and detect_hsync in src/apps/ui_analog_tv.cpp), over exact reals. */
module AnalogTv {

  // ----- the line framer

  /** How many samples the first `n` lines take: n times the samples per line, rounded down. */
  function Cut(spl: real, n: nat): (c: int) { (n as real * spl).Floor }

  /** How far into its last sample line `n` begins. */
  function Phase(spl: real, n: nat): real { n as real * spl - Cut(spl, n) as real }

  lemma CutStep(spl: real, n: nat)
    requires spl >= 1.0
    ensures Cut(spl, 0) == 0 && Phase(spl, 0) == 0.0 && 0 <= Cut(spl, n) < Cut(spl, n + 1)
    ensures 0.0 <= Phase(spl, n) < 1.0
    ensures Cut(spl, n + 1) - Cut(spl, n) == LengthFor(spl, Phase(spl, n)) && LengthFor(spl, Phase(spl, n)) >= 1
    ensures Phase(spl, n + 1) == NextFrac(spl, Phase(spl, n))
  {
    hide LengthFor, NextFrac;
    Advance(n as real * spl, spl, (n + 1) as real * spl);
    NonNegative(n, spl);
  }

  lemma NonNegative(n: nat, spl: real)
    requires spl >= 1.0
    ensures n as real * spl >= 0.0 && (n + 1) as real * spl == n as real * spl + spl
  {
  }

  lemma Advance(a: real, spl: real, b: real)
    requires b == a + spl && spl >= 1.0
    ensures var frac := a - a.Floor as real;
            && 0.0 <= frac < 1.0
            && b.Floor - a.Floor == LengthFor(spl, frac) && LengthFor(spl, frac) >= 1
            && b - b.Floor as real == NextFrac(spl, frac)
  {
  }

  /** peek_next_length. */
  function LengthFor(spl: real, frac: real): int {
    var base := spl.Floor;
    var len := if frac + (spl - base as real) >= 1.0 then base + 1 else base;
    if len == 0 then 1 else len
  }

  /** advance_frac. */
  function NextFrac(spl: real, frac: real): real {
    var f := frac + (spl - spl.Floor as real);
    if f >= 1.0 then f - 1.0 else f
  }

  /** The first `n` lines of a signal. */
  function Lines<T>(signal: seq<T>, spl: real, n: nat): (r: seq<seq<T>>)
    requires spl >= 1.0 && Cut(spl, n) <= |signal|
    ensures |r| == n
    decreases n
  {
    if n == 0 then []
    else
      CutStep(spl, n - 1);
      Lines(signal, spl, n - 1) + [signal[Cut(spl, n - 1)..Cut(spl, n)]]
  }

  function Joined<T>(lines: seq<seq<T>>): seq<T> {
    if lines == [] then [] else Joined(lines[..|lines| - 1]) + lines[|lines| - 1]
  }

  /** What a framer holds and has emitted once `input` has gone in, however it was chunked. */
  predicate Tracks<T(==)>(spl: real, xCorrection: nat, input: seq<T>, primed: bool, frac: real, buf: seq<T>, emitted: seq<seq<T>>)
    requires spl >= 1.0
  {
    if |input| <= xCorrection then !primed && frac == 0.0 && buf == input && emitted == []
    else
      var signal, n := input[xCorrection..], |emitted|;
      CutStep(spl, n);
      && primed
      && Cut(spl, n) <= |signal| < Cut(spl, n + 1)
      && emitted == Lines(signal, spl, n)
      && buf == signal[Cut(spl, n)..]
      && frac == Phase(spl, n)
  }

  lemma {:induction false} CutGrows(spl: real, m: nat, n: nat)
    requires spl >= 1.0 && m < n
    ensures Cut(spl, m) < Cut(spl, n)
    decreases n
  {
    hide Cut;
    CutStep(spl, n - 1);
    if m < n - 1 {
      CutGrows(spl, m, n - 1);
    }
  }

  /** The input alone decides everything: two framers that have had the same samples in different chunks have
      emitted the same lines and hold the same state. */
  lemma ChunksDoNotMatter<T>(spl: real, x: nat, input: seq<T>, p: bool, f: real, b: seq<T>, e: seq<seq<T>>,
                             q: bool, g: real, c: seq<T>, o: seq<seq<T>>)
    requires spl >= 1.0 && Tracks(spl, x, input, p, f, b, e) && Tracks(spl, x, input, q, g, c, o)
    ensures p == q && f == g && b == c && e == o
  {
    hide Cut, Phase, Lines;
    if |e| < |o| {
      if |e| + 1 < |o| {
        CutGrows(spl, |e| + 1, |o|);
      }
    } else if |o| < |e| {
      if |o| + 1 < |e| {
        CutGrows(spl, |o| + 1, |e|);
      }
    }
  }

  lemma {:induction false} LinesJoin<T>(signal: seq<T>, spl: real, n: nat)
    requires spl >= 1.0 && Cut(spl, n) <= |signal|
    ensures 0 <= Cut(spl, n) && Joined(Lines(signal, spl, n)) == signal[..Cut(spl, n)]
    decreases n
  {
    hide Cut;
    CutStep(spl, n);
    if n > 0 {
      CutStep(spl, n - 1);
      LinesJoin(signal, spl, n - 1);
      assert signal[..Cut(spl, n)] == signal[..Cut(spl, n - 1)] + signal[Cut(spl, n - 1)..Cut(spl, n)];
    }
  }

  /** Conservation and no drift: the emitted lines and the retained samples are the input without its first
      `xCorrection` samples, and after n lines exactly floor(n * spl) samples have been used. */
  lemma NothingLost<T>(spl: real, x: nat, input: seq<T>, primed: bool, frac: real, buf: seq<T>, emitted: seq<seq<T>>)
    requires spl >= 1.0 && Tracks(spl, x, input, primed, frac, buf, emitted)
    ensures primed <==> |input| > x
    ensures !primed ==> buf == input && emitted == []
    ensures primed ==> Joined(emitted) + buf == input[x..] && |Joined(emitted)| == (|emitted| as real * spl).Floor
  {
    if primed {
      LinesJoin(input[x..], spl, |emitted|);
    }
  }

  lemma {:induction false} LinesOfMore<T>(signal: seq<T>, more: seq<T>, spl: real, n: nat)
    requires spl >= 1.0 && Cut(spl, n) <= |signal|
    ensures Lines(signal + more, spl, n) == Lines(signal, spl, n)
    decreases n
  {
    hide Cut;
    if n > 0 {
      CutStep(spl, n - 1);
      LinesOfMore(signal, more, spl, n - 1);
      assert (signal + more)[Cut(spl, n - 1)..Cut(spl, n)] == signal[Cut(spl, n - 1)..Cut(spl, n)];
    }
  }

  lemma LinesNext<T>(signal: seq<T>, spl: real, n: nat)
    requires spl >= 1.0 && Cut(spl, n + 1) <= |signal|
    ensures 0 <= Cut(spl, n) < Cut(spl, n + 1)
    ensures Lines(signal, spl, n + 1) == Lines(signal, spl, n) + [signal[Cut(spl, n)..Cut(spl, n + 1)]]
  {
    hide Cut;
    CutStep(spl, n);
  }

  lemma NextPiece<T>(signal: seq<T>, from: int, to: int)
    requires 0 <= from <= to <= |signal|
    ensures signal[from..][..to - from] == signal[from..to] && signal[from..][to - from..] == signal[to..]
  {
  }

  class LineFramer<T(==)> {
    var spl: real
    var xCorrection: nat
    var frac: real
    var primed: bool
    var buf: seq<T>
    /** The lines the handler has been called with. */
    var emitted: seq<seq<T>>
    /** Everything fed since the last reset. */
    ghost var input: seq<T>

    ghost predicate Valid()
      reads this
    {
      spl >= 1.0 && Tracks(spl, xCorrection, input, primed, frac, buf, emitted)
    }

    constructor (spl: real, xCorrection: nat)
      ensures Valid() && input == [] && this.xCorrection == xCorrection
      ensures this.spl == if spl > 1.0 then spl else 1.0
    {
      this.spl := if spl > 1.0 then spl else 1.0;
      this.xCorrection := xCorrection;
      frac, primed, buf, emitted, input := 0.0, false, [], [], [];
    }

    /** The lines already handed out are forgotten with the rest. */
    method Reset()
      requires Valid()
      modifies this
      ensures Valid() && input == [] && emitted == [] && spl == old(spl) && xCorrection == old(xCorrection)
    {
      frac, primed, buf, emitted, input := 0.0, false, [], [], [];
    }

    method Feed(env: seq<T>)
      requires Valid()
      modifies this
      ensures Valid() && input == old(input) + env && spl == old(spl) && xCorrection == old(xCorrection)
      ensures old(emitted) <= emitted
    {
      hide Cut, Phase, Lines, LengthFor, NextFrac;
      ghost var before := input;
      if |env| == 0 {
        assert input + env == input;
        return;
      }
      buf := buf + env;
      input := input + env;
      if !primed {
        if |buf| <= xCorrection {
          return;
        }
        buf := buf[xCorrection..];
        primed := true;
      }
      ghost var signal := input[xCorrection..];
      ghost var n := |emitted|;
      CutStep(spl, n);
      if |before| > xCorrection {
        assert signal == before[xCorrection..] + env;
        LinesOfMore(before[xCorrection..], env, spl, n);
      }
      CutLines();
    }

    /** The loop of feed. */
    method CutLines()
      requires spl >= 1.0 && |input| > xCorrection && primed
      requires 0 <= Cut(spl, |emitted|) <= |input| - xCorrection
      requires emitted == Lines(input[xCorrection..], spl, |emitted|) && buf == input[xCorrection..][Cut(spl, |emitted|)..]
      requires frac == Phase(spl, |emitted|)
      modifies this
      ensures Valid() && input == old(input) && spl == old(spl) && xCorrection == old(xCorrection)
      ensures old(emitted) <= emitted
    {
      hide Cut, Phase, LengthFor, NextFrac, Lines;
      ghost var signal := input[xCorrection..];
      CutStep(spl, |emitted|);
      var len := LengthFor(spl, frac);
      while |buf| >= len
        invariant spl == old(spl) && xCorrection == old(xCorrection) && input == old(input) && primed && spl >= 1.0
        invariant 0 <= Cut(spl, |emitted|) <= |signal| && 1 <= len == LengthFor(spl, frac)
        invariant emitted == Lines(signal, spl, |emitted|) && buf == signal[Cut(spl, |emitted|)..]
        invariant frac == Phase(spl, |emitted|)
        invariant old(emitted) <= emitted
        decreases |buf|
      {
        ghost var n := |emitted|;
        CutStep(spl, n);
        CutStep(spl, n + 1);
        LinesNext(signal, spl, n);
        NextPiece(signal, Cut(spl, n), Cut(spl, n + 1));
        emitted := emitted + [buf[..len]];
        frac := NextFrac(spl, frac);
        buf := buf[len..];
        len := LengthFor(spl, frac);
      }
      CutStep(spl, |emitted|);
    }
  }

  // ----- horizontal sync

  /** A run of low samples starts at `i`. */
  predicate StartsRun(env: seq<real>, threshold: real, i: nat)
    requires i < |env|
  {
    env[i] <= threshold && (i == 0 || env[i - 1] > threshold)
  }

  /** The samples from `i` on stay low for `n` samples. */
  predicate StaysLow(env: seq<real>, threshold: real, i: nat, n: nat) {
    i + n <= |env| && forall k :: i <= k < i + n ==> env[k] <= threshold
  }

  predicate IsEdge(env: seq<real>, threshold: real, minRun: nat, i: nat)
    requires i < |env|
  {
    StartsRun(env, threshold, i) && StaysLow(env, threshold, i, minRun)
  }

  /** The starts below `k` of low runs of at least `minRun` samples. */
  function Edges(env: seq<real>, threshold: real, minRun: nat, k: nat): seq<nat>
    requires k <= |env|
    decreases k
  {
    if k == 0 then []
    else
      Edges(env, threshold, minRun, k - 1) + if IsEdge(env, threshold, minRun, k - 1) then [k - 1] else []
  }

  lemma {:induction false} NoEdgesBetween(env: seq<real>, threshold: real, minRun: nat, j: nat, k: nat)
    requires j <= k <= |env| && forall i :: j <= i < k ==> !StartsRun(env, threshold, i)
    ensures Edges(env, threshold, minRun, k) == Edges(env, threshold, minRun, j)
    decreases k
  {
    if j < k {
      NoEdgesBetween(env, threshold, minRun, j, k - 1);
    }
  }

  method DetectHsync(env: seq<real>, threshold: real, minRun: nat) returns (edges: seq<nat>)
    ensures edges == Edges(env, threshold, if minRun == 0 then 1 else minRun, |env|)
  {
    hide Edges;
    var need := if minRun == 0 then 1 else minRun;
    var runStart, runLen, inRun := 0, 0, false;
    edges := [];
    NoEdges(env, threshold, need);
    for i := 0 to |env|
      invariant !inRun ==> edges == Edges(env, threshold, need, i) && (i > 0 ==> env[i - 1] > threshold)
      invariant inRun ==> runStart < i && runLen == i - runStart && StartsRun(env, threshold, runStart)
                          && StaysLow(env, threshold, runStart, runLen) && edges == Edges(env, threshold, need, runStart)
    {
      if env[i] <= threshold {
        if !inRun {
          inRun, runStart, runLen := true, i, 1;
        } else {
          runLen := runLen + 1;
        }
      } else {
        if inRun {
          RunEnds(env, threshold, need, runStart, i, i + 1);
        } else {
          NoEdgesBetween(env, threshold, need, i, i + 1);
        }
        if inRun && runLen >= need {
          edges := edges + [runStart];
        }
        inRun, runLen := false, 0;
      }
    }
    if inRun {
      RunEnds(env, threshold, need, runStart, |env|, |env|);
    }
    if inRun && runLen >= need {
      edges := edges + [runStart];
    }
  }

  lemma NoEdges(env: seq<real>, threshold: real, minRun: nat)
    ensures Edges(env, threshold, minRun, 0) == []
  {
  }

  /** A run from `start` to in front of `end` is an edge exactly when it is long enough. */
  lemma RunEnds(env: seq<real>, threshold: real, minRun: nat, start: nat, end: nat, k: nat)
    requires minRun >= 1 && start < end <= k <= |env| && k <= end + 1 && StartsRun(env, threshold, start)
    requires StaysLow(env, threshold, start, end - start) && (end < |env| ==> env[end] > threshold)
    ensures Edges(env, threshold, minRun, k) ==
            Edges(env, threshold, minRun, start) + if end - start >= minRun then [start] else []
  {
    if end - start < minRun && start + minRun <= |env| {
      assert env[end] > threshold;
      assert !StaysLow(env, threshold, start, minRun);
    }
    NoEdgesBetween(env, threshold, minRun, start + 1, k);
  }
}
