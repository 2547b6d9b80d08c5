/** A POCSAG page on the air: the encoder's words sent bit by bit, most significant first, and put together again by the
    sync and batch extractor (pocsag_encode and CodewordExtractor in src/apps/pocsag_app.hpp). */
module PocsagAir {
  import opened Bits
  import opened PocsagWord
  import opened PocsagTx
  import opened PocsagFraming
  import Page = PocsagPage
  import Lost = PocsagLost
  import Rx = PocsagRx

  // ----- words on the wire

  function WordBits(w: Codeword): (r: seq<bool>)
    ensures |r| == 32
  {
    seq(32, p requires 0 <= p < 32 => At(w, p))
  }

  function Wire(words: seq<Codeword>): (r: seq<bool>)
    ensures |r| == 32 * |words|
  {
    if words == [] then [] else WordBits(words[0]) + Wire(words[1..])
  }

  lemma {:induction false} WireAppend(a: seq<Codeword>, b: seq<Codeword>)
    ensures Wire(a + b) == Wire(a) + Wire(b)
  {
    hide WordBits;
    if a == [] {
      assert a + b == b;
    } else {
      assert (a + b)[1..] == a[1..] + b;
      WireAppend(a[1..], b);
    }
  }

  // ----- the shift register

  /** What the window holds behind some bits. */
  function Pack(bits: seq<bool>): Codeword {
    if bits == [] then ZERO else Shl(Pack(bits[..|bits| - 1]), bits[|bits| - 1])
  }

  lemma {:induction false} PackBit(bits: seq<bool>, j: nat)
    requires j < 32
    ensures BitAt(Pack(bits), j) == (j < |bits| && bits[|bits| - 1 - j])
    decreases |bits|
  {
    hide BitAt, Shl;
    if bits == [] {
      NoBits(j);
    } else {
      var n := |bits| - 1;
      ShlBit(Pack(bits[..n]), bits[n], j);
      if j > 0 {
        PackBit(bits[..n], j - 1);
      }
    }
  }

  lemma PackWord(w: Codeword)
    ensures Pack(WordBits(w)) == w
  {
    hide BitAt, Pack;
    forall p | 0 <= p < 32
      ensures At(Pack(WordBits(w)), p) == At(w, p)
    {
      PackBit(WordBits(w), 31 - p);
    }
    SameBits(Pack(WordBits(w)), w);
  }

  predicate Fresh(e: Extractor) { e.data == ZERO && e.bitCount == 0 }

  /** Fewer than 32 fresh bits are only collected. */
  lemma {:induction false} Filling(e: Extractor, bits: seq<bool>)
    requires Fresh(e) && |bits| < 32
    ensures Run(e, bits) == e.(data := Pack(bits), bitCount := |bits|)
    decreases |bits|
  {
    hide Shl, Saved, Hunted;
    if bits != [] {
      Filling(e, bits[..|bits| - 1]);
    }
  }

  /** A word of 32 fresh bits is saved, or compared with the sync word. */
  lemma FreshWord(e: Extractor, w: Codeword)
    requires Fresh(e)
    ensures var t := e.(data := w, bitCount := 32); Run(e, WordBits(w)) == if e.hasSync then Saved(t) else Hunted(t)
  {
    hide Shl, Saved, Hunted, Pack, At;
    var bits := WordBits(w);
    Filling(e, bits[..31]);
    PackWord(w);
    PackPush(bits);
  }

  lemma PackPush(bits: seq<bool>)
    requires |bits| == 32
    ensures Pack(bits) == Shl(Pack(bits[..31]), bits[31])
  {
  }

  // ----- batches behind sync words

  /** The rest of a batch, word by word, whatever the words are. */
  lemma {:induction false} BatchRun(e: Extractor, words: seq<Codeword>)
    requires Fresh(e) && e.hasSync && !e.inverted && words != [] && |e.batch| + |words| == BATCH
    ensures Run(e, Wire(words)) == e.(hasSync := false, batch := [], emitted := e.emitted + [(e.batch + words, false)])
    decreases |words|
  {
    hide Run, WordBits;
    FreshWord(e, words[0]);
    RunAppend(e, WordBits(words[0]), Wire(words[1..]));
    var u := Run(e, WordBits(words[0]));
    if |words| == 1 {
      assert words == [words[0]];
      RunNothing(u);
    } else {
      BatchRun(u, words[1..]);
      assert e.batch + [words[0]] + words[1..] == e.batch + words;
    }
  }

  lemma RunNothing(e: Extractor)
    ensures Run(e, []) == e
  {
  }

  predicate NearSync(w: Codeword) { DiffCount(w, SYNC) <= 2 }

  /** A received batch and the sync word in front of it. */
  datatype Block = Block(sync: Codeword, words: seq<Codeword>)

  predicate Good(b: Block) { NearSync(b.sync) && |b.words| == BATCH }

  function BlockBits(blocks: seq<Block>): seq<bool> {
    if blocks == [] then [] else WordBits(blocks[0].sync) + Wire(blocks[0].words) + BlockBits(blocks[1..])
  }

  function Upright(batches: seq<seq<Codeword>>): (r: seq<(seq<Codeword>, bool)>)
    ensures |r| == |batches|
  {
    seq(|batches|, i requires 0 <= i < |batches| => (batches[i], false))
  }

  function WordsOf(blocks: seq<Block>): (r: seq<seq<Codeword>>)
    ensures |r| == |blocks|
  {
    seq(|blocks|, i requires 0 <= i < |blocks| => blocks[i].words)
  }

  /** Between batches. */
  predicate Resting(e: Extractor) { Fresh(e) && !e.hasSync && e.batch == [] }

  lemma BlockRun(e: Extractor, b: Block)
    requires Resting(e) && Good(b)
    ensures Run(e, WordBits(b.sync) + Wire(b.words)) == e.(inverted := false, emitted := e.emitted + [(b.words, false)])
  {
    hide Run, WordBits, Wire, DiffCount;
    RunAppend(e, WordBits(b.sync), Wire(b.words));
    FreshWord(e, b.sync);
    BatchRun(Synced(e, false), b.words);
    assert [] + b.words == b.words;
  }

  lemma {:induction false} BlocksRun(e: Extractor, blocks: seq<Block>)
    requires Resting(e) && forall i :: 0 <= i < |blocks| ==> Good(blocks[i])
    ensures Run(e, BlockBits(blocks)).emitted == e.emitted + Upright(WordsOf(blocks))
    decreases |blocks|
  {
    hide Run, WordBits, Wire, Good;
    if blocks == [] {
      RunNothing(e);
    } else {
      var b := blocks[0];
      BlockRun(e, b);
      RunAppend(e, WordBits(b.sync) + Wire(b.words), BlockBits(blocks[1..]));
      BlocksRun(Run(e, WordBits(b.sync) + Wire(b.words)), blocks[1..]);
      assert Upright(WordsOf(blocks)) == [(b.words, false)] + Upright(WordsOf(blocks[1..]));
    }
  }

  // ----- distances between stretches of bits

  function Gap(a: bool, b: bool): nat { if a != b then 1 else 0 }

  /** At how many of the first `n` places two stretches differ. */
  function Gaps(a: seq<bool>, b: seq<bool>, n: nat): (r: nat)
    requires n <= |a| && n <= |b|
    ensures r <= n
    decreases n
  {
    if n == 0 then 0 else Gaps(a, b, n - 1) + Gap(a[n - 1], b[n - 1])
  }

  lemma {:induction false} Triangle(a: seq<bool>, b: seq<bool>, c: seq<bool>, n: nat)
    requires n <= |a| && n <= |b| && n <= |c|
    ensures Gaps(a, c, n) <= Gaps(a, b, n) + Gaps(b, c, n)
    ensures Gaps(a, b, n) == Gaps(b, a, n)
    decreases n
  {
    if n > 0 {
      Triangle(a, b, c, n - 1);
    }
  }

  /** The comparison of words is that of their bits. */
  lemma {:induction false} CountIsGaps(w: Codeword, v: Codeword, a: seq<bool>, b: seq<bool>, n: nat)
    requires |a| == 32 && |b| == 32 && n <= 32 && forall p :: 0 <= p < 32 ==> a[p] == At(w, p) && b[p] == At(v, p)
    ensures Ones(Mix(w, v), 32) == Ones(Mix(w, v), 32 - n) + Gaps(a, b, n)
    decreases n
  {
    hide BitAt, Mix, Gaps, Ones;
    if n == 0 {
      NoGaps(a, b);
    } else {
      CountIsGaps(w, v, a, b, n - 1);
      BitOfBoth(w, v, 32 - n);
      OneMoreBit(Mix(w, v), 32 - n);
      OneMoreGap(a, b, n);
      assert a[n - 1] == At(w, n - 1) && b[n - 1] == At(v, n - 1);
    }
  }

  lemma NoGaps(a: seq<bool>, b: seq<bool>)
    ensures Gaps(a, b, 0) == 0
  {
  }

  lemma OneMoreBit(w: Codeword, i: nat)
    ensures Ones(w, i + 1) == Ones(w, i) + One(BitAt(w, i))
  {
    hide BitAt;
  }

  lemma OneMoreGap(a: seq<bool>, b: seq<bool>, n: nat)
    requires 0 < n <= |a| && n <= |b|
    ensures Gaps(a, b, n) == Gaps(a, b, n - 1) + Gap(a[n - 1], b[n - 1])
  {
  }

  lemma WindowCount(bits: seq<bool>, v: Codeword)
    requires |bits| >= 32
    ensures DiffCount(Pack(bits), v) == Gaps(bits[|bits| - 32..], WordBits(v), 32)
  {
    hide BitAt, Pack, Mix, Gaps, Ones;
    var window := bits[|bits| - 32..];
    forall p | 0 <= p < 32
      ensures window[p] == At(Pack(bits), p)
    {
      PackBit(bits, 31 - p);
    }
    CountIsGaps(Pack(bits), v, window, WordBits(v), 32);
    NoOnes(Mix(Pack(bits), v));
  }

  lemma NoOnes(w: Codeword)
    ensures Ones(w, 0) == 0
  {
  }

  // ----- no sync in front of the sync word

  const HEAD: nat := 608

  /** The places at which the sync word has a one. */
  predicate SyncBit(p: nat) {
    p == 1 || p == 2 || p == 3 || p == 4 || p == 5 || p == 8 || p == 9 || p == 11 || p == 14 || p == 19 || p == 21 || p == 23 ||
    p == 24 || p == 25 || p == 27 || p == 28
  }

  lemma SyncAt(p: nat)
    requires p < 32
    ensures At(SYNC, p) == SyncBit(p) && At(PREAMBLE, p) == (p % 2 == 0)
  {
    hide Mask;
    MaskValues();
  }

  /** The preamble and the first sync word, as sent. */
  function Head(): (r: seq<bool>)
    ensures |r| == HEAD
  {
    seq(HEAD, j requires 0 <= j < HEAD => if j < 576 then j % 2 == 0 else SyncBit(j - 576))
  }

  /** A window that ends with `k` bits of the sync word, behind alternating ones. */
  predicate WindowBit(odd: nat, k: nat, p: nat) { if p + k < 32 then (odd + p) % 2 == 0 else SyncBit(p + k - 32) }

  function EightGaps(odd: nat, k: nat, p: nat): nat {
    Gap(WindowBit(odd, k, p), SyncBit(p)) + Gap(WindowBit(odd, k, p + 1), SyncBit(p + 1)) +
    Gap(WindowBit(odd, k, p + 2), SyncBit(p + 2)) + Gap(WindowBit(odd, k, p + 3), SyncBit(p + 3)) +
    Gap(WindowBit(odd, k, p + 4), SyncBit(p + 4)) + Gap(WindowBit(odd, k, p + 5), SyncBit(p + 5)) +
    Gap(WindowBit(odd, k, p + 6), SyncBit(p + 6)) + Gap(WindowBit(odd, k, p + 7), SyncBit(p + 7))
  }

  function WindowGaps(odd: nat, k: nat): nat {
    EightGaps(odd, k, 0) + EightGaps(odd, k, 8) + EightGaps(odd, k, 16) + EightGaps(odd, k, 24)
  }

  /** Far from the sync word and from its complement. */
  predicate Far(gaps: nat) { 9 <= gaps <= 23 }

  lemma FarAlternating()
    ensures Far(WindowGaps(0, 0)) && Far(WindowGaps(1, 0))
  {
  }

  lemma Far8(k: nat)
    requires k < 8
    ensures Far(WindowGaps(k % 2, k))
  {
  }

  lemma Far16(k: nat)
    requires 8 <= k < 16
    ensures Far(WindowGaps(k % 2, k))
  {
  }

  lemma Far24(k: nat)
    requires 16 <= k < 24
    ensures Far(WindowGaps(k % 2, k))
  {
  }

  lemma Far32(k: nat)
    requires 24 <= k < 32
    ensures Far(WindowGaps(k % 2, k))
  {
  }

  /** Every window of the preamble, and of the preamble with part of the sync word, is far from both. */
  lemma AllFar(odd: nat, k: nat)
    requires k < 32 && odd < 2 && (k > 0 ==> odd == k % 2)
    ensures Far(WindowGaps(odd, k))
  {
    hide WindowGaps, Far;
    FarAlternating();
    if k < 8 {
      Far8(k);
    } else if k < 16 {
      Far16(k);
    } else if k < 24 {
      Far24(k);
    } else {
      Far32(k);
    }
  }

  lemma GapsOfEight(a: seq<bool>, b: seq<bool>, odd: nat, k: nat, n: nat)
    requires n + 8 <= |a| && n + 8 <= |b| && forall p :: n <= p < n + 8 ==> a[p] == WindowBit(odd, k, p) && b[p] == SyncBit(p)
    ensures Gaps(a, b, n + 8) == Gaps(a, b, n) + EightGaps(odd, k, n)
  {
    hide WindowBit, SyncBit, Gap;
    assert Gaps(a, b, n + 2) == Gaps(a, b, n) + Gap(a[n], b[n]) + Gap(a[n + 1], b[n + 1]);
    assert Gaps(a, b, n + 4) == Gaps(a, b, n + 2) + Gap(a[n + 2], b[n + 2]) + Gap(a[n + 3], b[n + 3]);
    assert Gaps(a, b, n + 6) == Gaps(a, b, n + 4) + Gap(a[n + 4], b[n + 4]) + Gap(a[n + 5], b[n + 5]);
    assert Gaps(a, b, n + 8) == Gaps(a, b, n + 6) + Gap(a[n + 6], b[n + 6]) + Gap(a[n + 7], b[n + 7]);
  }

  lemma WindowIsFar(a: seq<bool>, odd: nat, k: nat)
    requires |a| == 32 && k < 32 && odd < 2 && (k > 0 ==> odd == k % 2)
    requires forall p :: 0 <= p < 32 ==> a[p] == WindowBit(odd, k, p)
    ensures Far(Gaps(a, WordBits(SYNC), 32))
  {
    hide WindowBit, SyncBit, EightGaps, At, Far, Gaps;
    NoGaps(a, WordBits(SYNC));
    var b := WordBits(SYNC);
    forall p | 0 <= p < 32
      ensures b[p] == SyncBit(p)
    {
      SyncAt(p);
    }
    GapsOfEight(a, b, odd, k, 0);
    GapsOfEight(a, b, odd, k, 8);
    GapsOfEight(a, b, odd, k, 16);
    GapsOfEight(a, b, odd, k, 24);
    AllFar(odd, k);
  }

  /** The 32 bits in front of place `i`. */
  function Window(r: seq<bool>, i: nat): (w: seq<bool>)
    requires 32 <= i <= |r|
    ensures |w| == 32
  {
    r[i - 32..i]
  }

  lemma HeadWindowFar(i: nat)
    requires 32 <= i < HEAD
    ensures Far(Gaps(Window(Head(), i), WordBits(SYNC), 32))
  {
    hide SyncBit, Far, WordBits, Gaps;
    var k := if i <= 576 then 0 else i - 576;
    WindowIsFar(Window(Head(), i), i % 2, k);
  }

  /** How many bits are wrong in a window of the head. */
  function Wrong(r: seq<bool>, i: nat): nat
    requires |r| == HEAD && 32 <= i <= HEAD
  {
    Gaps(Window(r, i), Window(Head(), i), 32)
  }

  /** Up to six wrong bits in any 32 in front of the end of the sync word, and up to two in the sync word. */
  predicate NoisyHead(r: seq<bool>) {
    |r| == HEAD && (forall i :: 32 <= i < HEAD ==> Wrong(r, i) <= 6) && Wrong(r, HEAD) <= 2
  }

  lemma NoFalseSync(r: seq<bool>, i: nat, e: Extractor)
    requires NoisyHead(r) && 32 <= i < HEAD && e.data == Pack(r[..i])
    ensures Hunted(e) == e
  {
    hide Gaps, Head, WordBits, Pack, DiffCount, Not;
    var window, sent, sync := Window(r, i), Window(Head(), i), WordBits(SYNC);
    assert r[..i][i - 32..] == window;
    assert Wrong(r, i) <= 6;
    WindowCount(r[..i], SYNC);
    HeadWindowFar(i);
    Triangle(sent, window, sync, 32);
    Triangle(window, sent, sync, 32);
    ComplementCounts(e.data, SYNC);
  }

  /** All through the head the extractor keeps hunting. */
  lemma {:induction false} Hunting(r: seq<bool>, i: nat)
    requires NoisyHead(r) && i < HEAD
    ensures Run(RESET, r[..i]) == RESET.(data := Pack(r[..i]), bitCount := if i < 32 then i else 32)
    decreases i
  {
    hide NoisyHead, Hunted, Shl;
    NoisyHeadSize(r);
    if i > 0 {
      Hunting(r, i - 1);
      assert r[..i][..i - 1] == r[..i - 1];
      if i >= 32 {
        NoFalseSync(r, i, RESET.(data := Pack(r[..i]), bitCount := 32));
      }
    }
  }

  lemma NoisyHeadSize(r: seq<bool>)
    requires NoisyHead(r)
    ensures |r| == HEAD
  {
  }

  lemma SyncSeen(r: seq<bool>)
    requires NoisyHead(r)
    ensures NearSync(Pack(r))
  {
    hide Gaps, Pack, At, SyncBit, DiffCount;
    WindowCount(r, SYNC);
    var sent := Window(Head(), HEAD);
    forall p | 0 <= p < 32
      ensures sent[p] == WordBits(SYNC)[p]
    {
      SyncAt(p);
    }
    assert sent == WordBits(SYNC);
    assert r[HEAD - 32..] == Window(r, HEAD);
  }

  /** The sync word at its end, and nothing in front of it, gives sync. */
  lemma HeadRun(r: seq<bool>)
    requires NoisyHead(r)
    ensures Run(RESET, r) == Synced(RESET, false)
  {
    hide NoisyHead, Pack, Shl, DiffCount;
    NoisyHeadSize(r);
    Hunting(r, HEAD - 1);
    PackLast(r);
    SyncSeen(r);
  }

  lemma PackLast(r: seq<bool>)
    requires |r| == HEAD
    ensures Pack(r) == Shl(Pack(r[..HEAD - 1]), r[HEAD - 1])
  {
  }

  /** From the air to batches: behind a noisy preamble and sync word, whatever words the batches hold, and with up to two
      wrong bits in every later sync word, the extractor emits exactly the batches, in order and upright. */
  lemma BatchesComeOut(head: seq<bool>, first: seq<Codeword>, rest: seq<Block>)
    requires NoisyHead(head) && |first| == BATCH && forall i :: 0 <= i < |rest| ==> Good(rest[i])
    ensures Run(RESET, head + Wire(first) + BlockBits(rest)).emitted == Upright([first] + WordsOf(rest))
  {
    hide NoisyHead, Run, Wire, BlockBits, Good;
    HeadRun(head);
    RunAppend(RESET, head + Wire(first), BlockBits(rest));
    RunAppend(RESET, head, Wire(first));
    BatchRun(Synced(RESET, false), first);
    assert [] + first == first;
    BlocksRun(Run(RESET, head + Wire(first)), rest);
    assert Upright([first] + WordsOf(rest)) == [(first, false)] + Upright(WordsOf(rest));
  }

  // ----- a page through the air

  /** A page with noise from the preamble to its last word, message words beyond correction among them: the extractor
      hands over its batches, and the batch decoder takes the page exactly when its address is not an idle one. */
  lemma PageThroughTheAir(m: seq<byte>, address: bv32, func: bv32, head: seq<bool>, first: seq<Codeword>, rest: seq<Block>,
                          s: Rx.Pager, judge: Rx.Judge)
    requires func < 4 && address < 0x200000 && Rx.Inv(s) && s.mode == Rx.Clear
    requires NoisyHead(head) && forall i :: 0 <= i < |rest| ==> NearSync(rest[i].sync)
    requires Page.RoughPage([first] + WordsOf(rest), Batches(m, address, func))
    ensures var batches := [first] + WordsOf(rest);
            && Run(RESET, head + Wire(first) + BlockBits(rest)).emitted == Upright(batches)
            && (forall i :: 0 <= i < |batches| ==> |batches[i]| == BATCH)
            && var (u, text) := Page.Hear(s, batches, judge);
               Lost.PageTaken(m, address, func, batches, u, text) <==>
                 !Lost.IdleAddress(address, func) || (m == [] && s.address == address && s.func == func)
  {
    hide NoisyHead, NearSync, Run, Wire, BlockBits, Batches, Page.RoughPage, Page.Hear, Lost.PageTaken,
         Lost.IdleAddress, Rx.Inv, Upright;
    var batches := [first] + WordsOf(rest);
    Lost.PageTakenIff(m, address, func, s, batches, judge);
    assert batches[0] == first;
    forall i | 0 <= i < |rest|
      ensures Good(rest[i])
    {
      assert batches[i + 1] == rest[i].words;
    }
    BatchesComeOut(head, first, rest);
  }

  // ----- the encoder's own words

  lemma {:induction false} NoErrors(a: seq<bool>, n: nat)
    requires n <= |a|
    ensures Gaps(a, a, n) == 0
    decreases n
  {
    if n > 0 {
      NoErrors(a, n - 1);
    }
  }

  lemma HeadIsClean()
    ensures NoisyHead(Head())
  {
    hide Head, Gaps, Window;
    forall i | 32 <= i <= HEAD
      ensures Wrong(Head(), i) == 0
    {
      NoErrors(Window(Head(), i), 32);
    }
  }

  lemma {:induction false} WireAt(words: seq<Codeword>, j: nat)
    requires j < 32 * |words|
    ensures Wire(words)[j] == At(words[j / 32], j % 32)
  {
    hide At;
    if j >= 32 {
      WireAt(words[1..], j - 32);
      assert j / 32 == (j - 32) / 32 + 1 && j % 32 == (j - 32) % 32;
    }
  }

  function Preamble(): (r: seq<Codeword>)
    ensures |r| == PREAMBLE_WORDS
  {
    seq(PREAMBLE_WORDS, _ => PREAMBLE)
  }

  lemma HeadIsPreamble()
    ensures Wire(Preamble() + [SYNC]) == Head()
  {
    hide At, SyncBit, Wire;
    var words := Preamble() + [SYNC];
    forall j | 0 <= j < HEAD
      ensures Wire(words)[j] == Head()[j]
    {
      WireAt(words, j);
      SyncAt(j % 32);
    }
  }

  /** Batches behind true sync words. */
  function Clean(batches: seq<seq<Codeword>>): (r: seq<Block>)
    ensures |r| == |batches|
  {
    seq(|batches|, i requires 0 <= i < |batches| => Block(SYNC, batches[i]))
  }

  lemma {:induction false} SentIsBlocks(batches: seq<seq<Codeword>>)
    ensures Wire(Sent(batches)) == BlockBits(Clean(batches))
  {
    hide WordBits;
    if batches != [] {
      var b := batches[0];
      assert Sent(batches) == [SYNC] + (b + Sent(batches[1..]));
      WireAppend([SYNC], b + Sent(batches[1..]));
      WireAppend(b, Sent(batches[1..]));
      WireOne(SYNC);
      assert Clean(batches)[1..] == Clean(batches[1..]);
      SentIsBlocks(batches[1..]);
    }
  }

  lemma WireOne(w: Codeword)
    ensures Wire([w]) == WordBits(w)
  {
    hide WordBits;
    assert [w][1..] == [];
  }

  lemma SyncIsNear()
    ensures NearSync(SYNC)
  {
    hide Mix;
    SyncMinusSync();
    ZeroCount(32);
  }

  lemma SyncMinusSync()
    ensures Mix(SYNC, SYNC) == ZERO
  {
  }

  /** What the encoder puts out for an alphanumeric page. */
  function EncodedPage(m: seq<byte>, address: bv32, func: bv32): seq<Codeword> { Preamble() + Sent(Batches(m, address, func)) }

  /** Any words behind the preamble and in sixteens behind sync words come out as those batches. */
  lemma SentComesOut(batches: seq<seq<Codeword>>)
    requires batches != [] && forall i :: 0 <= i < |batches| ==> |batches[i]| == BATCH
    ensures Run(RESET, Wire(Preamble() + Sent(batches))).emitted == Upright(batches)
  {
    hide NoisyHead, Run, Wire, BlockBits, NearSync, Head, Preamble;
    var first, rest := batches[0], Sent(batches[1..]);
    assert Preamble() + Sent(batches) == Preamble() + [SYNC] + (first + rest);
    WireAppend(Preamble() + [SYNC], first + rest);
    WireAppend(first, rest);
    HeadIsPreamble();
    HeadIsClean();
    SyncIsNear();
    SentIsBlocks(batches[1..]);
    BatchesComeOut(Head(), first, Clean(batches[1..]));
    assert Head() + Wire(first) + Wire(rest) == Head() + (Wire(first) + Wire(rest));
    assert [first] + WordsOf(Clean(batches[1..])) == batches;
  }

  /** The bits of the encoder's page come out as its batches, upright, and the complemented bits as the same batches,
      inverted. */
  lemma EncodedPageComesOut(m: seq<byte>, address: bv32, func: bv32)
    ensures var bits, batches := Wire(EncodedPage(m, address, func)), Batches(m, address, func);
            && Run(RESET, bits).emitted == Upright(batches)
            && Run(RESET, Complement(bits)).emitted == Flipped(Upright(batches))
  {
    hide Run, Wire, Sent, Preamble, Flipped, Upright;
    Lost.BatchSizes(m, address, func);
    SentComesOut(Batches(m, address, func));
    PolaritySymmetry(Wire(EncodedPage(m, address, func)));
  }
}
