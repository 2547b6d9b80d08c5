/** From bits to batches (BitQueue, diff_bit_count, CodewordExtractor and the chunk loop of AudioDecoder::process in
    src/apps/pocsag_app.hpp). */
module PocsagFraming {
  import opened PocsagWord
  import opened PocsagTx

  // ----- shifting and complementing words

  function Shl(w: Codeword, bit: bool): Codeword { Codeword((w.v << 1) | (if bit then 1 else 0)) }

  function Not(w: Codeword): Codeword { Codeword(!w.v) }

  const ALL := Codeword(0xFFFFFFFF)
  const LOW31 := Codeword(0x7FFFFFFF)

  lemma NotIsMix(w: Codeword)
    ensures Not(w) == Mix(w, ALL)
  {
  }

  lemma AllBits(i: nat)
    requires i < 32
    ensures BitAt(ALL, i) && BitAt(LOW31, i) == (i < 31)
  {
    hide Mask;
    MaskValues();
  }

  lemma NotBit(w: Codeword, i: nat)
    requires i < 32
    ensures BitAt(Not(w), i) == !BitAt(w, i)
  {
    hide Not, Mix, BitAt, ALL;
    NotIsMix(w);
    BitOfBoth(w, ALL, i);
    AllBits(i);
  }

  lemma ShlHalf(w: Codeword, bit: bool)
    ensures Half(Shl(w, bit)) == Meet(w, LOW31)
    ensures Meets(Shl(w, bit), 1) == bit
  {
    if bit {
    } else {
    }
  }

  lemma ShlBit(w: Codeword, bit: bool, i: nat)
    requires i < 32
    ensures BitAt(Shl(w, bit), i) == if i == 0 then bit else BitAt(w, i - 1)
  {
    hide Shl, Half, Meet, BitAt, Meets, LOW31;
    ShlHalf(w, bit);
    LowestBit(Shl(w, bit));
    if i > 0 {
      HalfBit(Shl(w, bit), i - 1);
      BitOfBoth(w, LOW31, i - 1);
      AllBits(i - 1);
    }
  }

  // ----- counting bits

  function One(b: bool): nat { if b then 1 else 0 }

  /** How many of the lowest `n` bits are set. */
  function Ones(w: Codeword, n: nat): nat
    decreases n
  {
    if n == 0 then 0 else Ones(w, n - 1) + One(BitAt(w, n - 1))
  }

  /** At how many of their 32 bits two words differ. */
  function DiffCount(a: Codeword, b: Codeword): nat { Ones(Mix(a, b), 32) }

  lemma {:induction false} OnesFromBelow(w: Codeword, n: nat)
    requires n > 0
    ensures Ones(w, n) == One(BitAt(w, 0)) + Ones(Half(w), n - 1)
    decreases n
  {
    hide BitAt, Half;
    HalfBit(w, n - 2 + One(n == 1));
    if n > 1 {
      OnesFromBelow(w, n - 1);
    }
  }

  /** v & (v - 1). */
  function Dropped(w: Codeword): Codeword { Codeword(w.v & (w.v - 1)) }

  lemma DroppedOdd(w: Codeword)
    requires Meets(w, 1)
    ensures Half(Dropped(w)) == Half(w) && !Meets(Dropped(w), 1)
  {
  }

  lemma DroppedEven(w: Codeword)
    requires !Meets(w, 1) && w != ZERO
    ensures Half(Dropped(w)) == Dropped(Half(w)) && !Meets(Dropped(w), 1) && Half(w) != ZERO
  {
  }

  /** Clearing the lowest set bit takes one from the count. */
  lemma {:induction false} DroppedCount(w: Codeword, n: nat, i: nat)
    requires i < n && BitAt(w, i)
    ensures Ones(Dropped(w), n) + 1 == Ones(w, n)
    decreases n
  {
    hide BitAt, Half, Dropped, Meets, ZERO;
    OnesFromBelow(w, n);
    OnesFromBelow(Dropped(w), n);
    LowestBit(w);
    LowestBit(Dropped(w));
    if BitAt(w, 0) {
      DroppedOdd(w);
    } else {
      HalfBit(w, i - 1);
      NotZero(w, i);
      DroppedEven(w);
      DroppedCount(Half(w), n - 1, i - 1);
    }
  }

  lemma NotZero(w: Codeword, i: nat)
    requires BitAt(w, i)
    ensures w != ZERO
  {
    hide BitAt;
    NoBits(i);
  }

  lemma SomeBit(w: Codeword) returns (i: nat)
    requires w != ZERO
    ensures i < 32 && BitAt(w, i)
  {
    hide BitAt, Top, ZERO;
    if forall k :: 0 <= k < 32 ==> !BitAt(w, k) {
      ClearTop(w);
      ClearLow(w);
      assert false;
    } else {
      i :| 0 <= i < 32 && BitAt(w, i);
    }
  }

  lemma {:induction false} ZeroCount(n: nat)
    ensures Ones(ZERO, n) == 0
  {
    hide BitAt;
    if n > 0 {
      NoBits(n - 1);
      ZeroCount(n - 1);
    }
  }

  /** diff_bit_count. */
  method DiffBitCount(left: Codeword, right: Codeword) returns (n: nat)
    ensures n == DiffCount(left, right)
  {
    hide Ones, Mix, Dropped, BitAt, ZERO;
    var v := Mix(left, right);
    n := 0;
    while v != ZERO
      invariant n + Ones(v, 32) == DiffCount(left, right)
      decreases Ones(v, 32)
    {
      var i := SomeBit(v);
      DroppedCount(v, 32, i);
      v := Dropped(v);
      n := n + 1;
    }
    ZeroCount(32);
  }

  lemma {:induction false} OnesOfNot(w: Codeword, n: nat)
    requires n <= 32
    ensures Ones(w, n) + Ones(Not(w), n) == n
    decreases n
  {
    hide BitAt, Not;
    if n > 0 {
      OnesOfNot(w, n - 1);
      NotBit(w, n - 1);
    }
  }

  lemma NotMovesLeft(a: Codeword, b: Codeword)
    ensures Mix(Not(a), b) == Not(Mix(a, b))
  {
  }

  lemma NotMovesRight(a: Codeword, b: Codeword)
    ensures Mix(a, Not(b)) == Not(Mix(a, b))
  {
  }

  lemma NotTwice(a: Codeword)
    ensures Not(Not(a)) == a
  {
  }

  /** Comparing the complement is comparing with the complement, and the two counts make 32: no word is near
      both a word and its complement. */
  lemma ComplementCounts(a: Codeword, b: Codeword)
    ensures DiffCount(Not(a), b) == DiffCount(a, Not(b))
    ensures DiffCount(a, b) + DiffCount(a, Not(b)) == 32
  {
    hide Ones, Mix, Not;
    NotMovesLeft(a, b);
    NotMovesRight(a, b);
    OnesOfNot(Mix(a, b), 32);
  }

  // ----- the bit queue

  /** The `count` lowest bits of a word, the highest of them first. */
  function Held(data: Codeword, count: nat): (r: seq<bool>)
    ensures |r| == count
  {
    seq(count, i requires 0 <= i < count => BitAt(data, count - 1 - i))
  }

  class BitQueue {
    var data: Codeword
    var count: nat

    ghost predicate Valid()
      reads this
    {
      count <= 32
    }

    ghost function Contents(): (r: seq<bool>)
      reads this
      ensures |r| == count
    {
      Held(data, count)
    }

    constructor ()
      ensures Valid() && Contents() == []
    {
      data, count := ZERO, 0;
    }

    /** Appends a bit; a full queue loses its oldest one. */
    method Push(bit: bool)
      requires Valid()
      modifies this
      ensures Valid()
      ensures Contents() == (if |old(Contents())| < 32 then old(Contents()) else old(Contents())[1..]) + [bit]
    {
      hide BitAt, Shl;
      ghost var before, was, size := Contents(), data, count;
      data := Shl(data, bit);
      if count < 32 {
        count := count + 1;
      }
      ghost var kept := if size < 32 then before else before[1..];
      forall i | 0 <= i < count
        ensures Held(data, count)[i] == (kept + [bit])[i]
      {
        ShlBit(was, bit, count - 1 - i);
      }
    }

    /** Takes the oldest bit; an empty queue gives a zero. */
    method Pop() returns (bit: bool)
      requires Valid()
      modifies this
      ensures Valid()
      ensures old(Contents()) == [] ==> !bit && Contents() == []
      ensures old(Contents()) != [] ==> bit == old(Contents())[0] && Contents() == old(Contents())[1..]
    {
      hide BitAt;
      if count == 0 {
        return false;
      }
      ghost var before := Contents();
      count := count - 1;
      bit := BitAt(data, count);
      assert Contents() == before[1..];
    }

    method Reset()
      modifies this
      ensures Valid() && Contents() == []
    {
      data, count := ZERO, 0;
    }
  }

  // ----- words out of bits

  /** CodewordExtractor; `batch` is the part of batch_ that has been filled, `emitted` what the batch handler
      has seen, with the polarity. */
  datatype Extractor = Extractor(hasSync: bool, inverted: bool, data: Codeword, bitCount: nat, batch: seq<Codeword>,
                                 emitted: seq<(seq<Codeword>, bool)>)

  const RESET := Extractor(false, false, ZERO, 0, [], [])

  function Cleared(e: Extractor): Extractor { e.(data := ZERO, bitCount := 0) }

  function Synced(e: Extractor, inverted: bool): Extractor { Cleared(e).(hasSync := true, inverted := inverted, batch := []) }

  /** A full window while hunting: two bit errors are tolerated, and the complement is accepted. */
  function Hunted(e: Extractor): Extractor {
    if DiffCount(e.data, SYNC) <= 2 then Synced(e, false)
    else if DiffCount(e.data, Not(SYNC)) <= 2 then Synced(e, true)
    else e
  }

  /** Sixteen words are a batch. */
  function Completed(e: Extractor): Extractor {
    if |e.batch| == BATCH then e.(emitted := e.emitted + [(e.batch, e.inverted)], hasSync := false, batch := []) else e
  }

  function Saved(e: Extractor): Extractor {
    Completed(Cleared(e.(batch := e.batch + [if e.inverted then Not(e.data) else e.data])))
  }

  function Shifted(e: Extractor, bit: bool): Extractor {
    e.(data := Shl(e.data, bit), bitCount := if e.bitCount < 32 then e.bitCount + 1 else e.bitCount)
  }

  function Take(e: Extractor, bit: bool): Extractor {
    var t := Shifted(e, bit);
    if t.bitCount < 32 then t else if t.hasSync then Saved(t) else Hunted(t)
  }

  function Run(e: Extractor, bits: seq<bool>): Extractor {
    if bits == [] then e else Take(Run(e, bits[..|bits| - 1]), bits[|bits| - 1])
  }

  lemma RunPush(e: Extractor, bits: seq<bool>, bit: bool)
    ensures Run(e, bits + [bit]) == Take(Run(e, bits), bit)
  {
    assert (bits + [bit])[..|bits|] == bits;
  }

  lemma {:induction false} RunAppend(e: Extractor, a: seq<bool>, b: seq<bool>)
    ensures Run(e, a + b) == Run(Run(e, a), b)
    decreases |b|
  {
    hide Take;
    if b == [] {
      assert a + b == a;
    } else {
      var n := |b| - 1;
      assert (a + b)[..|a| + n] == a + b[..n];
      RunAppend(e, a, b[..n]);
    }
  }

  // ----- polarity

  function Complement(bits: seq<bool>): (r: seq<bool>)
    ensures |r| == |bits|
  {
    seq(|bits|, i requires 0 <= i < |bits| => !bits[i])
  }

  function Flipped(emitted: seq<(seq<Codeword>, bool)>): (r: seq<(seq<Codeword>, bool)>)
    ensures |r| == |emitted|
  {
    seq(|emitted|, i requires 0 <= i < |emitted| => (emitted[i].0, !emitted[i].1))
  }

  /** The two windows are complements as far as bits have been shifted in. */
  predicate Opposite(a: Codeword, b: Codeword, n: nat) { forall i :: 0 <= i < n ==> BitAt(a, i) != BitAt(b, i) }

  /** The extractors of a stream and of its complement. */
  predicate Mirrors(e: Extractor, f: Extractor) {
    && e.hasSync == f.hasSync && e.bitCount == f.bitCount <= 32 && |e.batch| < BATCH && e.batch == f.batch
    && (e.hasSync ==> e.inverted != f.inverted && e.bitCount < 32)
    && Opposite(e.data, f.data, e.bitCount)
    && f.emitted == Flipped(e.emitted)
  }

  lemma OppositeShifts(a: Codeword, b: Codeword, n: nat, bit: bool)
    requires Opposite(a, b, n) && n <= 32
    ensures Opposite(Shl(a, bit), Shl(b, !bit), if n < 32 then n + 1 else n)
  {
    hide Shl, BitAt;
    var m := if n < 32 then n + 1 else n;
    forall i | 0 <= i < m
      ensures BitAt(Shl(a, bit), i) != BitAt(Shl(b, !bit), i)
    {
      ShlBit(a, bit, i);
      ShlBit(b, !bit, i);
      assert i > 0 ==> BitAt(a, i - 1) != BitAt(b, i - 1);
    }
  }

  lemma OppositeIsNot(a: Codeword, b: Codeword)
    requires Opposite(a, b, 32)
    ensures b == Not(a)
  {
    hide Not, BitAt;
    forall p | 0 <= p < 32
      ensures At(b, p) == At(Not(a), p)
    {
      NotBit(a, 31 - p);
      assert BitAt(a, 31 - p) != BitAt(b, 31 - p);
    }
    SameBits(b, Not(a));
  }

  lemma FlippedPush(emitted: seq<(seq<Codeword>, bool)>, batch: seq<Codeword>, inverted: bool)
    ensures Flipped(emitted + [(batch, inverted)]) == Flipped(emitted) + [(batch, !inverted)]
  {
  }

  lemma NothingOpposite()
    ensures Opposite(ZERO, ZERO, 0)
  {
  }

  lemma HuntsMirror(e: Extractor, f: Extractor)
    requires !e.hasSync && !f.hasSync && e.bitCount == 32 && f.bitCount == 32 && e.batch == f.batch && |e.batch| < BATCH
    requires Opposite(e.data, f.data, 32) && f.emitted == Flipped(e.emitted)
    ensures Mirrors(Hunted(e), Hunted(f))
  {
    hide DiffCount, Not, Opposite, Flipped;
    OppositeIsNot(e.data, f.data);
    ComplementCounts(e.data, SYNC);
    ComplementCounts(e.data, Not(SYNC));
    NotTwice(SYNC);
    NothingOpposite();
  }

  lemma SavesMirror(e: Extractor, f: Extractor)
    requires e.hasSync && f.hasSync && e.bitCount == 32 && f.bitCount == 32 && e.batch == f.batch && |e.batch| < BATCH
    requires e.inverted != f.inverted && Opposite(e.data, f.data, 32) && f.emitted == Flipped(e.emitted)
    ensures Mirrors(Saved(e), Saved(f))
  {
    hide Not, Opposite, Flipped;
    OppositeIsNot(e.data, f.data);
    NotTwice(e.data);
    NothingOpposite();
    FlippedPush(e.emitted, e.batch + [if e.inverted then Not(e.data) else e.data], e.inverted);
  }

  lemma TakeMirrors(e: Extractor, f: Extractor, bit: bool)
    requires Mirrors(e, f)
    ensures Mirrors(Take(e, bit), Take(f, !bit))
  {
    hide Shl, Opposite, Flipped, Hunted, Saved;
    OppositeShifts(e.data, f.data, e.bitCount, bit);
    var t, u := Shifted(e, bit), Shifted(f, !bit);
    if t.bitCount == 32 {
      if t.hasSync {
        SavesMirror(t, u);
      } else {
        HuntsMirror(t, u);
      }
    }
  }

  lemma {:induction false} RunMirrors(bits: seq<bool>)
    ensures Mirrors(Run(RESET, bits), Run(RESET, Complement(bits)))
  {
    hide Mirrors, Take;
    if bits == [] {
      StartMirrors();
      assert Complement(bits) == [];
    } else {
      var n := |bits| - 1;
      RunMirrors(bits[..n]);
      assert Complement(bits)[..n] == Complement(bits[..n]);
      TakeMirrors(Run(RESET, bits[..n]), Run(RESET, Complement(bits[..n])), bits[n]);
    }
  }

  lemma StartMirrors()
    ensures Mirrors(RESET, RESET)
  {
  }

  /** Polarity symmetry: on the complement of any bit stream the extractor emits the same batches after the
      same bits, with the polarity flipped. */
  lemma PolaritySymmetry(bits: seq<bool>)
    ensures Run(RESET, Complement(bits)).emitted == Flipped(Run(RESET, bits).emitted)
    ensures forall n :: 0 <= n <= |bits| ==> |Run(RESET, Complement(bits)[..n]).emitted| == |Run(RESET, bits[..n]).emitted|
  {
    hide Run, Flipped;
    RunMirrors(bits);
    forall n | 0 <= n <= |bits|
      ensures |Run(RESET, Complement(bits)[..n]).emitted| == |Run(RESET, bits[..n]).emitted|
    {
      RunMirrors(bits[..n]);
      assert Complement(bits)[..n] == Complement(bits[..n]);
    }
  }

  /** What is pending is padded with idle words and emitted; the bits of an unfinished word stay. */
  function Flushed(e: Extractor): Extractor {
    if e.batch == [] then e
    else
      e.(emitted := e.emitted + [(e.batch + (if |e.batch| < BATCH then Idles(BATCH - |e.batch|) else []), e.inverted)],
         hasSync := false, batch := [])
  }

  // ----- the extractor as the program writes it

  class CodewordExtractor {
    const bits: BitQueue
    var hasSync: bool
    var inverted: bool
    var data: Codeword
    var bitCount: nat
    const batch: array<Codeword>
    var wordCount: nat
    /** The batches the handler has been called with. */
    var emitted: seq<(seq<Codeword>, bool)>

    ghost predicate Valid()
      reads this, bits
    {
      batch.Length == BATCH && wordCount < BATCH && bitCount <= 32 && bits.Valid()
    }

    ghost function Value(): Extractor
      reads this, batch
      requires wordCount <= batch.Length
    {
      Extractor(hasSync, inverted, data, bitCount, batch[..wordCount], emitted)
    }

    constructor (bits: BitQueue)
      requires bits.Valid()
      ensures Valid() && Value() == RESET && this.bits == bits && fresh(batch)
    {
      this.bits := bits;
      hasSync, inverted, data, bitCount, wordCount, emitted := false, false, ZERO, 0, 0, [];
      batch := new Codeword[BATCH](_ => ZERO);
    }

    method HandleSync(inverted: bool)
      requires Valid()
      modifies this
      ensures Valid() && Value() == Synced(old(Value()), inverted)
    {
      data, bitCount := ZERO, 0;
      hasSync := true;
      this.inverted := inverted;
      wordCount := 0;
    }

    method HandleBatchComplete()
      requires wordCount == batch.Length == BATCH
      modifies this
      ensures wordCount == 0
      ensures Value() == old(Value()).(emitted := old(emitted) + [(batch[..], old(inverted))], hasSync := false, batch := [])
    {
      emitted := emitted + [(batch[..], inverted)];
      hasSync := false;
      wordCount := 0;
    }

    /** A full word of a batch. */
    method SaveCurrentCodeword()
      requires Valid()
      modifies this, batch
      ensures Valid() && Value() == Saved(old(Value()))
    {
      hide Not;
      ghost var before := batch[..wordCount];
      var word := if inverted then Not(data) else data;
      batch[wordCount] := word;
      wordCount := wordCount + 1;
      assert batch[..wordCount] == before + [word];
      data, bitCount := ZERO, 0;
      if wordCount == BATCH {
        assert batch[..wordCount] == batch[..];
        HandleBatchComplete();
      }
    }

    /** One round of process_bits. */
    method TakeOne(bit: bool)
      requires Valid()
      modifies this, batch
      ensures Valid() && Value() == Take(old(Value()), bit)
    {
      hide Shl, DiffCount, Saved, Not;
      data := Shl(data, bit);
      if bitCount < 32 {
        bitCount := bitCount + 1;
      }
      if bitCount < 32 {
        return;
      }
      if !hasSync {
        var d := DiffBitCount(data, SYNC);
        if d <= 2 {
          HandleSync(false);
        } else {
          d := DiffBitCount(data, Not(SYNC));
          if d <= 2 {
            HandleSync(true);
          }
        }
        return;
      }
      SaveCurrentCodeword();
    }

    /** process_bits: everything in the queue, oldest first. */
    method ProcessBits()
      requires Valid()
      modifies this, batch, bits
      ensures Valid() && bits.Contents() == []
      ensures Value() == Run(old(Value()), old(bits.Contents()))
    {
      hide Take, Held;
      ghost var all, start := bits.Contents(), Value();
      ghost var done := 0;
      while bits.count > 0
        invariant Valid() && done <= |all| && bits.Contents() == all[done..]
        invariant Value() == Run(start, all[..done])
        decreases bits.count
      {
        assert all[..done + 1] == all[..done] + [all[done]];
        RunPush(start, all[..done], all[done]);
        var bit := bits.Pop();
        TakeOne(bit);
        done := done + 1;
      }
      assert all[..done] == all;
    }

    /** flush: pad with idle words and emit what is pending. */
    method Flush()
      requires Valid()
      modifies this, batch
      ensures Valid()
      ensures Value() == Flushed(old(Value()))
    {
      if wordCount == 0 {
        return;
      }
      ghost var before, n := batch[..wordCount], wordCount;
      while wordCount < BATCH
        invariant n <= wordCount <= BATCH && batch.Length == BATCH && bitCount <= 32 && bits.Valid()
        invariant emitted == old(emitted) && inverted == old(inverted) && hasSync == old(hasSync)
        invariant data == old(data) && bitCount == old(bitCount)
        invariant batch[..wordCount] == before + Idles(wordCount - n)
      {
        batch[wordCount] := IDLE;
        wordCount := wordCount + 1;
        assert batch[..wordCount] == before + Idles(wordCount - 1 - n) + [IDLE];
        assert Idles(wordCount - 1 - n) + [IDLE] == Idles(wordCount - n);
      }
      assert batch[..] == batch[..wordCount];
      HandleBatchComplete();
    }
  }

  // ----- the sixteen-sample cadence

  /** What the bit clock makes of a normalised sample: nothing yet, or a bit. */
  datatype Decision = NoBit | Bit(value: bool)

  function BitsOf(samples: seq<Decision>): (r: seq<bool>)
    ensures |r| <= |samples|
  {
    if samples == [] then []
    else
      var rest, last := BitsOf(samples[..|samples| - 1]), samples[|samples| - 1];
      if last.Bit? then rest + [last.value] else rest
  }

  lemma {:induction false} BitsJoin(a: seq<Decision>, b: seq<Decision>)
    ensures BitsOf(a + b) == BitsOf(a) + BitsOf(b)
    decreases |b|
  {
    if b == [] {
      assert a + b == a;
    } else {
      var n := |b| - 1;
      assert (a + b)[..|a| + n] == a + b[..n];
      BitsJoin(a, b[..n]);
    }
  }

  const CHUNK: nat := 16

  class AudioDecoder {
    const queue: BitQueue
    const words: CodewordExtractor

    ghost predicate Valid()
      reads this, queue, words, words.bits
    {
      words.bits == queue && words.Valid() && queue.Contents() == []
    }

    constructor ()
      ensures Valid() && words.Value() == RESET
    {
      var q := new BitQueue();
      queue := q;
      words := new CodewordExtractor(q);
    }

    /** extract_bits, from the decisions of the bit clock on. */
    method ExtractBits(samples: seq<Decision>)
      requires queue.Valid() && queue.Contents() == [] && |samples| <= 32
      modifies queue
      ensures queue.Valid() && queue.Contents() == BitsOf(samples)
    {
      hide Held;
      for i := 0 to |samples|
        invariant queue.Valid() && queue.Contents() == BitsOf(samples[..i])
      {
        assert samples[..i + 1][..i] == samples[..i];
        if samples[i].Bit? {
          queue.Push(samples[i].value);
        }
      }
      assert samples[..|samples|] == samples;
    }

    /** The chunk loop: the bits that reach the word extractor are exactly those the clock decided, in order,
        for a block of any length. */
    method Process(samples: seq<Decision>)
      requires Valid()
      modifies queue, words, words.batch
      ensures Valid()
      ensures words.Value() == Run(old(words.Value()), BitsOf(samples))
    {
      hide Take, Held, BitsOf;
      ghost var start := words.Value();
      var off := 0;
      NoSamples();
      while off < |samples|
        invariant 0 <= off <= |samples| && Valid()
        invariant words.Value() == Run(start, BitsOf(samples[..off]))
      {
        var n := if |samples| - off < CHUNK then |samples| - off else CHUNK;
        assert samples[..off + n] == samples[..off] + samples[off..off + n];
        BitsJoin(samples[..off], samples[off..off + n]);
        RunAppend(start, BitsOf(samples[..off]), BitsOf(samples[off..off + n]));
        ExtractBits(samples[off..off + n]);
        words.ProcessBits();
        off := off + n;
      }
      assert samples[..off] == samples;
    }
  }

  lemma NoSamples()
    ensures BitsOf([]) == []
  {
  }
}
