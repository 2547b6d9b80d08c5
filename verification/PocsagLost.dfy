/** What becomes of a POCSAG page whose address word is the idle word (pocsag_encode and pocsag_decode_batch in
    src/apps/pocsag_app.hpp): no part of it is heard. With the page round trip this gives exactly which pages are
    taken. */
module PocsagLost {
  import opened Bits
  import opened PocsagWord
  import opened PocsagCode
  import opened PocsagEcc
  import opened PocsagTx
  import opened PocsagRx
  import opened PocsagPage

  // ----- words a decoder between pages passes over

  /** The idle word, or a codeword that is not an address. */
  predicate PassedOver(w: Codeword) { w == IDLE || (SyndromeOf(w) == CLEAN && !IsAddress(w)) }

  lemma TakesPassedOver(s: Pager, l: Sample, received: Codeword, sent: Codeword, judge: Judge)
    requires s.idx < 7 && s.mode == Clear && PassedOver(sent) && Rough(received, sent)
    ensures var (errors, w) := Answer(received);
            var o := Taken(s, l, received, w, errors, judge);
            o.Go? && o.s == s.(out := o.s.out, index := s.index + 1) && o.l == l
  {
    hide Answer, Rough, Noisy, IsAddress, Partial, Message, NumericText, Top, Uncorrectable;
    IdleIsCodeword();
    if sent == IDLE {
      RoughIsNoisy(received, IDLE);
      HeardExactly(received, IDLE);
    } else {
      RoughMessage(received, sent);
    }
  }

  lemma WordIsPassedOver(m: seq<byte>, t: Tx)
    requires Ready(t)
    ensures PassedOver(WordFor(m, t))
  {
    hide Encoded, Sealed, Filled, IsAddress, Partial, Top;
    if HasMore(m, t) {
      EncodedIsCodeword(Sealed(Filled(m, t).codeword));
      MessageIsNoAddress(Filled(m, t).codeword, WordFor(m, t));
    }
  }

  predicate AllPassedOver(words: seq<Codeword>) { forall k :: 0 <= k < |words| ==> PassedOver(words[k]) }

  lemma {:induction false} WordsArePassedOver(m: seq<byte>, t: Tx, n: nat)
    requires Ready(t)
    ensures AllPassedOver(Words(m, t, n))
    decreases n
  {
    hide PassedOver, WordFor, NextTx;
    if n > 0 {
      WordsArePassedOver(m, t, n - 1);
      WordIsPassedOver(m, TxAfter(m, t, n - 1));
    }
  }

  lemma FirstBatchIsPassedOver(m: seq<byte>, address: bv32, func: bv32)
    requires AddressWord(address, func) == IDLE
    ensures AllPassedOver(FirstBatch(m, address, func))
  {
    hide Encoded, AddressBits, Frame, Words, SyndromeOf, IsAddress;
    WordsArePassedOver(m, START, Room(address));
  }

  lemma {:induction false} MoreBatchesArePassedOver(m: seq<byte>, t: Tx)
    requires Ready(t)
    ensures forall i :: 0 <= i < |MoreBatches(m, t)| ==> AllPassedOver(MoreBatches(m, t)[i])
    decreases |m| - t.charIdx
  {
    hide AllPassedOver, Words, TxAfter;
    if t.charIdx < |m| {
      WordsArePassedOver(m, t, BATCH);
      MoreBatchesArePassedOver(m, TxAfter(m, t, BATCH));
    }
  }

  // ----- a batch, and the page

  /** To the end of a batch of such words: nothing is shown and no page begins. */
  lemma {:induction false} PassedOverRun(s: Pager, l: Sample, batch: seq<Codeword>, sent: seq<Codeword>, judge: Judge)
    requires s.idx < 7 && s.mode == Clear && s.index <= BATCH == |sent| && RoughBatch(batch, sent) && AllPassedOver(sent)
    ensures var (more, u) := Looped(s, l, batch, judge);
            !more && u.mode == Clear && u.output == s.output && SamePage(s, u)
    decreases BATCH - s.index
  {
    hide Taken, Answer, Rough, PassedOver, NumericText;
    if s.index == BATCH {
      LoopedEnd(s, l, batch, judge);
    } else {
      LoopedStep(s, l, batch, judge);
      var received := batch[s.index];
      assert Rough(received, sent[s.index]) && PassedOver(sent[s.index]);
      TakesPassedOver(s, l, received, sent[s.index], judge);
      var (errors, w) := Answer(received);
      PassedOverRun(Taken(s, l, received, w, errors, judge).s, l, batch, sent, judge);
    }
  }

  lemma BatchIsPassedOver(s: Pager, batch: seq<Codeword>, sent: seq<Codeword>, judge: Judge)
    requires Inv(s) && s.mode == Clear && |sent| == BATCH && RoughBatch(batch, sent) && AllPassedOver(sent)
    ensures Inv(Rewound(s))
    ensures var states := Calls(Rewound(s), batch, judge); var last := states[|states| - 1];
            Text(states) == [] && last.mode == Clear && SamePage(s, last) && Inv(last)
  {
    hide Looped, RoughBatch, AllPassedOver, Calls;
    RoughBatchSize(batch, sent);
    RewoundKeeps(s);
    OpenedKeeps(Rewound(s));
    CallsStep(Rewound(s), batch, judge);
    PassedOverRun(Opened(Rewound(s)), NO_SAMPLE, batch, sent, judge);
    var (more, u) := Call(Rewound(s), batch, judge);
    TextOfTwo(u, u);
    assert [u] + [] == [u];
  }

  lemma RoughBatchSize(batch: seq<Codeword>, sent: seq<Codeword>)
    requires RoughBatch(batch, sent)
    ensures |batch| == |sent|
  {
  }

  lemma {:induction false} NothingHeard(s: Pager, received: seq<seq<Codeword>>, sent: seq<seq<Codeword>>, judge: Judge)
    requires Inv(s) && s.mode == Clear && RoughPage(received, sent)
    requires forall i :: 0 <= i < |sent| ==> |sent[i]| == BATCH && AllPassedOver(sent[i])
    ensures forall i :: 0 <= i < |received| ==> |received[i]| == BATCH
    ensures var (u, text) := Hear(s, received, judge); text == [] && u.mode == Clear && SamePage(s, u)
    decreases |received|
  {
    hide RoughBatch, RoughPage, AllPassedOver, Calls, Inv;
    RoughPageSize(received, sent);
    if received != [] {
      RoughPageRest(received, sent);
      BatchIsPassedOver(s, received[0], sent[0], judge);
      var states := Calls(Rewound(s), received[0], judge);
      NothingHeard(states[|states| - 1], received[1..], sent[1..], judge);
    }
  }

  /** A page whose address word is the idle word is lost: nothing is shown, no page is open, and the decoder still
      holds the address and the function it held. */
  lemma PageIsLost(m: seq<byte>, address: bv32, func: bv32, s: Pager, received: seq<seq<Codeword>>, judge: Judge)
    requires func < 4 && address < 0x200000 && !Addressable(address, func)
    requires Inv(s) && s.mode == Clear && RoughPage(received, Batches(m, address, func))
    ensures forall i :: 0 <= i < |received| ==> |received[i]| == BATCH
    ensures var (u, text) := Hear(s, received, judge); text == [] && u.mode == Clear && SamePage(s, u)
  {
    hide RoughPage, Hear, Inv, AddressWord, FirstBatch, MoreBatches, AllPassedOver, TxAfter, Frame;
    var sent := Batches(m, address, func);
    FirstBatchIsPassedOver(m, address, func);
    MoreBatchesArePassedOver(m, TxAfter(m, START, Room(address)));
    NothingHeard(s, received, sent, judge);
  }

  // ----- exactly which pages are taken

  /** The function and the eight addresses that share the idle word's information bits. */
  predicate IdleAddress(address: bv32, func: bv32) { func == 0 && address & 0x1FFFF8 == 0x1EA270 }

  /** The page's address and function are held, and its message is shown: a question mark for every character with a
      bit in a word beyond correction, and no last character where the end of a batch splits it. */
  ghost predicate PageTaken(m: seq<byte>, address: bv32, func: bv32, received: seq<seq<Codeword>>, u: Pager, text: seq<byte>)
    requires received != [] && |received[0]| == BATCH
  {
    u.address == address && u.func == func && Shows(m, Behind(received, address), Room(address), text)
  }

  /** Which pages are taken, for every message and every address and function: exactly those that are not
      an idle address's. Another page leaves no trace, so it is taken only where there was nothing to take: an empty
      message for the address and function that are held already. */
  lemma PageTakenIff(m: seq<byte>, address: bv32, func: bv32, s: Pager, received: seq<seq<Codeword>>, judge: Judge)
    requires func < 4 && address < 0x200000 && Inv(s) && s.mode == Clear
    requires RoughPage(received, Batches(m, address, func))
    ensures received != [] && forall i :: 0 <= i < |received| ==> |received[i]| == BATCH
    ensures var (u, text) := Hear(s, received, judge);
            && (PageTaken(m, address, func, received, u, text) <==>
                  !IdleAddress(address, func) || (m == [] && s.address == address && s.func == func))
            && (IdleAddress(address, func) ==> text == [] && u.mode == Clear && SamePage(s, u))
  {
    hide RoughPage, Hear, Inv, Addressable, Batches, Frame, Behind, Straddles, Spoilt, Seen;
    AddressableIff(address, func);
    SomeBatches(m, address, func);
    RoughPageSize(received, Batches(m, address, func));
    if Addressable(address, func) {
      PageRoundTrip(m, address, func, s, received, judge);
    } else {
      PageIsLost(m, address, func, s, received, judge);
      if |m| <= 1 {
        ShortIsWhole(m, Room(address));
      }
    }
  }

  lemma SomeBatches(m: seq<byte>, address: bv32, func: bv32)
    ensures Batches(m, address, func) != []
  {
    hide FirstBatch, MoreBatches, TxAfter, Room;
  }

  /** A message of one or no characters is never split. */
  lemma ShortIsWhole(m: seq<byte>, room: nat)
    requires |m| <= 1
    ensures !Straddles(m, room)
  {
  }

  // ----- the two losses, at inputs without a single error

  lemma Faithful(w: Codeword)
    ensures Noisy(w, w)
  {
    hide At;
    NoDifferences(w, 31);
  }

  lemma {:induction false} NoDifferences(w: Codeword, n: nat)
    requires n <= 32
    ensures Differences(w, w, n) == 0
    decreases n
  {
    hide At;
    if n > 0 {
      NoDifferences(w, n - 1);
    }
  }

  lemma FaithfulPage(sent: seq<seq<Codeword>>)
    ensures RoughPage(sent, sent)
  {
    hide Noisy;
    forall i, k | 0 <= i < |sent| && 0 <= k < |sent[i]|
      ensures Rough(sent[i][k], sent[i][k])
    {
      Faithful(sent[i][k]);
    }
  }

  predicate AllCodewords(words: seq<Codeword>) { forall k :: 0 <= k < |words| ==> SyndromeOf(words[k]) == CLEAN }

  lemma {:induction false} WordsAreCodewords(m: seq<byte>, t: Tx, n: nat)
    requires Ready(t)
    ensures AllCodewords(Words(m, t, n))
    decreases n
  {
    hide WordFor, NextTx, Partial, CLEAN, PassedOver;
    if n > 0 {
      WordsAreCodewords(m, t, n - 1);
      WordIsCodeword(m, TxAfter(m, t, n - 1));
    }
  }

  lemma WordIsCodeword(m: seq<byte>, t: Tx)
    requires Ready(t)
    ensures SyndromeOf(WordFor(m, t)) == CLEAN
  {
    hide Partial, IsAddress;
    WordIsPassedOver(m, t);
    IdleIsCodeword();
  }

  lemma {:induction false} MoreAreCodewords(m: seq<byte>, t: Tx)
    requires Ready(t)
    ensures forall i :: 0 <= i < |MoreBatches(m, t)| ==> AllCodewords(MoreBatches(m, t)[i])
    decreases |m| - t.charIdx
  {
    hide AllCodewords, Words, TxAfter;
    if t.charIdx < |m| {
      WordsAreCodewords(m, t, BATCH);
      MoreAreCodewords(m, TxAfter(m, t, BATCH));
    }
  }

  /** A page without errors has no word beyond correction. */
  lemma FaithfulNoneLost(m: seq<byte>, address: bv32, func: bv32)
    ensures NoneLost(Batches(m, address, func))
  {
    hide Frame, Words, Partial, CLEAN, Noisy, At, Differences, AllCodewords, Uncorrectable;
    var sent := Batches(m, address, func);
    FirstIsCodewords(m, address, func);
    MoreAreCodewords(m, TxAfter(m, START, Room(address)));
    forall i, k | 0 <= i < |sent| && 0 <= k < |sent[i]|
      ensures !Uncorrectable(sent[i][k])
    {
      OneOfAll(sent[i], k);
      CodewordIsNear(sent[i][k]);
    }
  }

  lemma OneOfAll(words: seq<Codeword>, k: nat)
    requires AllCodewords(words) && k < |words|
    ensures SyndromeOf(words[k]) == CLEAN
  {
    hide SyndromeOf;
  }

  lemma CodewordIsNear(w: Codeword)
    requires SyndromeOf(w) == CLEAN
    ensures !Uncorrectable(w)
  {
    hide Partial, Noisy, Differences;
    NoDifferences(w, 31);
  }

  lemma FirstIsCodewords(m: seq<byte>, address: bv32, func: bv32)
    ensures AllCodewords(FirstBatch(m, address, func))
  {
    hide Frame, Words, Partial, Encoded, AddressBits, CLEAN;
    WordsAreCodewords(m, START, Room(address));
    IdleIsCodeword();
    EncodedIsCodeword(AddressBits(address, func));
  }

  lemma BatchSizes(m: seq<byte>, address: bv32, func: bv32)
    ensures forall i :: 0 <= i < |Batches(m, address, func)| ==> |Batches(m, address, func)[i]| == BATCH
  {
    hide FirstBatch, MoreBatches, TxAfter, Room;
  }

  lemma StartIsGood()
    ensures Inv(INITIAL) && INITIAL.mode == Clear
  {
  }

  /** What a fresh decoder makes of a page without errors. */
  ghost function Heard(m: seq<byte>, address: bv32, func: bv32, judge: Judge): (Pager, seq<byte>) {
    BatchSizes(m, address, func);
    StartIsGood();
    Hear(INITIAL, Batches(m, address, func), judge)
  }

  /** No message with function 0 reaches the pager at the first of the eight addresses. */
  lemma IdleAddressHearsNothing(m: seq<byte>, judge: Judge)
    ensures var (u, text) := Heard(m, 0x1EA270, 0, judge); text == [] && u.mode == Clear && SamePage(INITIAL, u)
  {
    hide RoughPage, Hear, Batches, Addressable, Inv, SamePage;
    AddressableIff(0x1EA270, 0);
    FaithfulPage(Batches(m, 0x1EA270, 0));
    StartIsGood();
    PageIsLost(m, 0x1EA270, 0, INITIAL, Batches(m, 0x1EA270, 0), judge);
  }

  /** A page whose last character is split shows everything in front of it. */
  lemma SplitPageHeard(m: seq<byte>, address: bv32, func: bv32, judge: Judge)
    requires func < 4 && address < 0x200000 && !IdleAddress(address, func) && Straddles(m, Room(address))
    ensures m != [] && Heard(m, address, func, judge).1 == SeenText(m)[..|m| - 1]
  {
    hide RoughPage, Hear, Batches, Straddles, Room, IdleAddress, Inv, Shows, NoneLost, Behind, Seen;
    FaithfulPage(Batches(m, address, func));
    FaithfulNoneLost(m, address, func);
    StartIsGood();
    PageTakenIff(m, address, func, INITIAL, Batches(m, address, func), judge);
    PageComesBack(m, address, Batches(m, address, func), Heard(m, address, func, judge).1);
  }

  const ABC: seq<byte> := [0x41, 0x42, 0x43]

  /** A pager in the last frame shows two of three characters. */
  lemma ShortMessageSplit(judge: Judge)
    ensures Heard(ABC, 7, 3, judge).1 == [0x41, 0x42]
  {
    hide Heard, Straddles, Room, IdleAddress, SeenText;
    LastFrame();
    SplitPageHeard(ABC, 7, 3, judge);
    PrintableIsSeen(ABC);
    assert ABC[..2] == [0x41, 0x42];
  }

  lemma LastFrame()
    ensures Straddles(ABC, Room(7)) && !IdleAddress(7, 3)
  {
    assert Room(7) == 1;
    assert SplitAt(3, 1 + BATCH * 0);
  }
}
