/** A numeric POCSAG page comes back: what the batch decoder has for an encoded page once the heuristic takes it for numeric
    (pocsag_encode, decode_nibble and pocsag_decode_batch in src/apps/pocsag_app.hpp). */
module PocsagNumeric {
  import opened Bits
  import opened PocsagCode
  import opened PocsagWord
  import opened PocsagEcc
  import opened PocsagTx
  import opened PocsagRx
  import opened PocsagPage

  // ----- one digit, and the five of a word

  /** How a character of the message is shown. */
  function ShownDigit(c: byte): char {
    if 0x30 <= c <= 0x39 then ['0', '1', '2', '3', '4', '5', '6', '7', '8', '9'][(c - 0x30) as nat]
    else if c == 0x53 then 'R'
    else if c == 0x55 then 'U'
    else if c == 0x2D then '-'
    else if c == 0x5D then ']'
    else if c == 0x5B then '['
    else ' '
  }

  function ValueAt(m: seq<byte>, i: nat): (v: byte)
    ensures v < 16
  {
    if i < |m| then DigitValue(m[i]) else 12
  }

  lemma TableReads()
    ensures NUMERIC_CHARS == ['0', '1', '2', '3', '4', '5', '6', '7', '8', '9', 'R', 'U', ' ', '-', ']', '[']
  {
  }

  lemma CharOfValue(v: byte)
    requires v < 16
    ensures NumericChar(v) == ['0', '1', '2', '3', '4', '5', '6', '7', '8', '9', 'R', 'U', ' ', '-', ']', '['][v as nat]
  {
    NibbleIsItself(v);
    TableReads();
  }

  lemma NibbleIsItself(v: byte)
    requires v < 16
    ensures v & 0x0F == v
  {
  }

  /** The character a digit is decoded to. */
  lemma DigitShown(c: byte)
    ensures NumericChar(DigitValue(c)) == ShownDigit(c)
  {
    hide NumericChar;
    CharOfValue(DigitValue(c));
    if 0x30 <= c <= 0x39 {
      DigitIsIndex(c);
    }
  }

  lemma DigitIsIndex(c: byte)
    requires 0x30 <= c <= 0x39
    ensures (c - 0x30) as nat < 10
  {
  }

  lemma TurnedFits(v: byte)
    requires v < 16
    ensures Turned(v) < 16 && Turned(Turned(v)) == v
    ensures Turned(12) == 3
  {
  }

  lemma CodeIsTurned(m: seq<byte>, i: nat)
    ensures CodeAt(m, i) == Turned(ValueAt(m, i)) && CodeAt(m, i) < 16 && Turned(CodeAt(m, i)) == ValueAt(m, i)
  {
    hide Turned, DigitValue;
    TurnedFits(12);
    TurnedFits(ValueAt(m, i));
  }

  function FiveCodes(a: byte, b: byte, c: byte, d: byte, e: byte): bv32 {
    Placed(Placed(Placed(Placed(Placed(0, a, 27), b, 23), c, 19), d, 15), e, 11)
  }

  /** The information bits of a word are a message's with that field. */
  predicate Holds(v: bv32, field: bv32) { v & 0xFFFFF800 == field | 0x80000000 }

  /** Nothing below the field. */
  predicate NoTail(field: bv32) { (field | 0x80000000) & 0xFFFFF800 == field | 0x80000000 }

  /** Each digit stands alone in the word. */
  lemma FiveSlots(v: bv32, a: byte, b: byte, c: byte, d: byte, e: byte)
    requires a < 16 && b < 16 && c < 16 && d < 16 && e < 16 && Holds(v, FiveCodes(a, b, c, d, e))
    ensures InSlot(v, 27, a) && InSlot(v, 23, b) && InSlot(v, 19, c) && InSlot(v, 15, d) && InSlot(v, 11, e)
  {
  }

  predicate InSlot(v: bv32, slot: nat, code: byte)
    requires slot < 32
  {
    (v >> slot) & 0xF == code as bv32
  }

  lemma Slot0(v: bv32, code: byte)
    requires code < 16 && InSlot(v, 27, code)
    ensures FourBits(v, 30) == Turned(code)
  {
  }

  lemma Slot1(v: bv32, code: byte)
    requires code < 16 && InSlot(v, 23, code)
    ensures FourBits(v, 26) == Turned(code)
  {
  }

  lemma Slot2(v: bv32, code: byte)
    requires code < 16 && InSlot(v, 19, code)
    ensures FourBits(v, 22) == Turned(code)
  {
  }

  lemma Slot3(v: bv32, code: byte)
    requires code < 16 && InSlot(v, 15, code)
    ensures FourBits(v, 18) == Turned(code)
  {
  }

  lemma Slot4(v: bv32, code: byte)
    requires code < 16 && InSlot(v, 11, code)
    ensures FourBits(v, 14) == Turned(code)
  {
  }

  /** Five digits through the field of a word, whatever its check bits. */
  lemma FiveBack(v: bv32, a: byte, b: byte, c: byte, d: byte, e: byte)
    requires a < 16 && b < 16 && c < 16 && d < 16 && e < 16 && Holds(v, FiveCodes(a, b, c, d, e))
    ensures Nibbles(Codeword(v)) == [Turned(a), Turned(b), Turned(c), Turned(d), Turned(e)]
  {
    hide FourBits, FiveCodes, Turned, InSlot, Holds;
    FiveSlots(v, a, b, c, d, e);
    Slot0(v, a);
    Slot1(v, b);
    Slot2(v, c);
    Slot3(v, d);
    Slot4(v, e);
  }

  lemma FieldIsFive(m: seq<byte>, k: nat)
    ensures DigitField(m, k, 5) ==
            FiveCodes(CodeAt(m, 5 * k), CodeAt(m, 5 * k + 1), CodeAt(m, 5 * k + 2), CodeAt(m, 5 * k + 3), CodeAt(m, 5 * k + 4))
  {
    hide Placed, CodeAt;
    assert DigitField(m, k, 0) == 0;
    assert DigitField(m, k, 2) == Placed(Placed(0, CodeAt(m, 5 * k), 27), CodeAt(m, 5 * k + 1), 23);
    assert DigitField(m, k, 4) == Placed(Placed(DigitField(m, k, 2), CodeAt(m, 5 * k + 2), 19), CodeAt(m, 5 * k + 3), 15);
  }

  /** The values of characters `i` to `j`. */
  function Values(m: seq<byte>, i: nat, n: nat): (r: seq<byte>)
    ensures |r| == n
  {
    seq(n, x requires 0 <= x < n => ValueAt(m, i + x))
  }

  lemma BitsAre(w: Codeword, field: bv32)
    requires Top(w) == Top(Codeword(field | 0x80000000)) && NoTail(field)
    ensures Holds(w.v, field)
  {
  }

  lemma CodesBack(w: Codeword, field: bv32, a: byte, b: byte, c: byte, d: byte, e: byte)
    requires a < 16 && b < 16 && c < 16 && d < 16 && e < 16 && field == FiveCodes(a, b, c, d, e)
    requires Top(w) == Top(Codeword(field | 0x80000000))
    ensures Nibbles(w) == [Turned(a), Turned(b), Turned(c), Turned(d), Turned(e)]
  {
    hide Nibbles, FiveCodes, Turned, Top, NoTail, Holds;
    FieldHasNoTail(a, b, c, d, e);
    BitsAre(w, field);
    FiveBack(w.v, a, b, c, d, e);
  }

  lemma NibblesBack(m: seq<byte>, k: nat, w: Codeword)
    requires Top(w) == Top(DigitBits(m, k))
    ensures Nibbles(w) == Values(m, 5 * k, 5)
  {
    hide *;
    FieldIsFive(m, k);
    BitsOfField(m, k);
    CodeIsTurned(m, 5 * k);
    CodeIsTurned(m, 5 * k + 1);
    CodeIsTurned(m, 5 * k + 2);
    CodeIsTurned(m, 5 * k + 3);
    CodeIsTurned(m, 5 * k + 4);
    CodesBack(w, DigitField(m, k, 5), CodeAt(m, 5 * k), CodeAt(m, 5 * k + 1), CodeAt(m, 5 * k + 2), CodeAt(m, 5 * k + 3),
              CodeAt(m, 5 * k + 4));
    FiveValues(m, 5 * k);
  }

  lemma BitsOfField(m: seq<byte>, k: nat)
    ensures DigitBits(m, k) == Codeword(DigitField(m, k, 5) | 0x80000000)
  {
    hide DigitField;
  }

  lemma FiveValues(m: seq<byte>, i: nat)
    ensures Values(m, i, 5) == [ValueAt(m, i), ValueAt(m, i + 1), ValueAt(m, i + 2), ValueAt(m, i + 3), ValueAt(m, i + 4)]
  {
    hide ValueAt;
  }

  lemma FieldHasNoTail(a: byte, b: byte, c: byte, d: byte, e: byte)
    requires a < 16 && b < 16 && c < 16 && d < 16 && e < 16
    ensures NoTail(FiveCodes(a, b, c, d, e))
  {
  }

  /** What is shown for the first `n` characters, with spaces behind the message. */
  function DigitText(m: seq<byte>, n: nat): (r: seq<char>)
    ensures |r| == n
  {
    seq(n, i requires 0 <= i < n => if i < |m| then ShownDigit(m[i]) else ' ')
  }

  lemma TextOfValues(m: seq<byte>, i: nat, n: nat)
    ensures DigitText(m, i) + NumericText(Values(m, i, n)) == DigitText(m, i + n)
    ensures NumericText(Values(m, 0, n)) == DigitText(m, n)
  {
    hide NumericChar, DigitValue, ShownDigit;
    forall x: nat
      ensures NumericChar(ValueAt(m, x)) == if x < |m| then ShownDigit(m[x]) else ' '
    {
      if x < |m| {
        DigitShown(m[x]);
      } else {
        CharOfValue(12);
      }
    }
  }

  // ----- a message word

  /** Words of the message. */
  function Total(m: seq<byte>): nat { (|m| + 4) / 5 }

  /** Behind `k` message words: the nibbles are kept until the type is decided, and the characters from then on. */
  predicate Counted(m: seq<byte>, s: Pager, l: Sample, k: nat) {
    && s.idx < 7 && s.mode != Clear && s.curErr <= 2 && (k > 0 ==> s.out == MessageOutput && s.mode == GettingMessage)
    && (if s.decided then s.detected == Numeric && s.numeric == FirstOf(DigitText(m, 5 * k), 80)
        else !l.bad && l.words == k && l.nibbles == Values(m, 0, 5 * k))
  }

  lemma {:induction false} UnpackedIsGood(s: Pager, l: Sample, fromPrev: nat)
    requires s.curErr <= 2 && s.prevErr <= 2
    ensures Unpacked(s, l, fromPrev).1.bad == l.bad
    decreases s.idx
  {
    hide TopChar, DropChar, Visible, Reverse;
    if s.idx >= 7 {
      var c := Reverse(TopChar(s.data));
      var shown := if CharError(s, fromPrev) >= 3 then QUESTION else Visible(c);
      UnpackedIsGood(s.(data := DropChar(s.data), idx := s.idx - 7, output := s.output + [shown]),
                     l.(alpha := if s.decided then l.alpha else l.alpha + [c], bad := l.bad || CharError(s, fromPrev) >= 3),
                     if fromPrev >= 7 then fromPrev - 7 else 0);
    }
  }

  lemma ValuesJoin(m: seq<byte>, n: nat)
    ensures Values(m, 0, n) + Values(m, n, 5) == Values(m, 0, n + 5)
  {
    hide ValueAt;
  }

  /** Five more characters, as long as they fit. */
  lemma FirstGrows(m: seq<byte>, k: nat)
    ensures var n := FirstOf(DigitText(m, 5 * k), 80);
            FirstOf(DigitText(m, 5 * k + 5), 80) == if |n| + 5 <= 80 then DigitText(m, 5 * k + 5) else n
    ensures 5 * k + 5 <= 80 ==> FirstOf(DigitText(m, 5 * k), 80) == DigitText(m, 5 * k)
  {
    if 5 * k + 5 > 80 {
      assert 5 * k >= 80;
      assert DigitText(m, 5 * k + 5)[..80] == DigitText(m, 5 * k)[..80];
      if 5 * k == 80 {
        assert DigitText(m, 5 * k)[..80] == DigitText(m, 5 * k);
      }
    }
  }

  lemma WordCounted(m: seq<byte>, s: Pager, l: Sample, k: nat, w: Codeword, errors: nat)
    requires Counted(m, s, l, k) && errors <= 2 && Top(w) == Top(DigitBits(m, k)) && (!s.decided ==> k < 16)
    ensures var (u, n) := Message(s, l, w, errors);
            Counted(m, u, n, k + 1) && u.decided == s.decided && u.index == s.index && SamePage(s, u)
  {
    hide Joined, Nibbles, NumericText, Unpacked, DigitBits, Top, Values, DigitText, FirstOf;
    var t := s.(mode := GettingMessage, out := MessageOutput, errors := s.errors + errors, prevErr := s.curErr,
                curErr := errors, data := Joined(s.data, w, s.idx), idx := s.idx + 20);
    UnpackedIsGood(t, l.(words := l.words + 1), s.idx);
    NibblesBack(m, k, w);
    ValuesJoin(m, 5 * k);
    FirstGrows(m, k);
    TextOfValues(m, 5 * k, 5);
    SizesOf(m, k);
  }

  lemma SizesOf(m: seq<byte>, k: nat)
    ensures |Values(m, 0, 5 * k)| == 5 * k && |DigitText(m, 5 * k)| == 5 * k
  {
  }

  /** A word of a numeric message as it may arrive: with up to two errors behind its first bit. */
  ghost predicate Arrives(received: Codeword, sent: Codeword) { Rough(received, sent) && !Uncorrectable(received) }

  lemma TakesDigits(m: seq<byte>, s: Pager, l: Sample, k: nat, received: Codeword, judge: Judge)
    requires Counted(m, s, l, k) && 5 * k < |m| && Arrives(received, DigitWord(m, k)) && (!s.decided ==> k < 16)
    ensures var (errors, w) := Answer(received);
            var o := Taken(s, l, received, w, errors, judge);
            && o.Go? && Counted(m, o.s, o.l, k + 1) && o.s.decided == s.decided && o.s.index == s.index + 1 && SamePage(s, o.s)
  {
    hide Answer, Rough, IsAddress, Message, Encoded, Top, Settled, Partial, Uncorrectable, DigitBits, Counted, CLEAN;
    var (errors, w) := Answer(received);
    EncodedIsCodeword(DigitBits(m, k));
    DigitsAreNoAddress(m, k);
    RoughMessage(received, DigitWord(m, k));
    CountedIsOpen(m, s, l, k);
    WordCounted(m, s, l, k, w, errors);
    CountedIgnoresIndex(m, Message(s, l, w, errors).0, Message(s, l, w, errors).1, k + 1);
  }

  lemma CountedIsOpen(m: seq<byte>, s: Pager, l: Sample, k: nat)
    requires Counted(m, s, l, k)
    ensures s.idx < 7 && s.mode != Clear
  {
    hide Values, DigitText, FirstOf;
  }

  lemma CountedIgnoresIndex(m: seq<byte>, s: Pager, l: Sample, k: nat)
    requires Counted(m, s, l, k)
    ensures Counted(m, s.(index := s.index + 1), l, k)
  {
    hide Values, DigitText, FirstOf;
  }

  lemma DigitsAreNoAddress(m: seq<byte>, k: nat)
    requires 5 * k < |m| && Top(DigitWord(m, k)) == Top(DigitBits(m, k))
    ensures !IsAddress(DigitWord(m, k))
  {
    hide Top, DigitField, DigitWord;
    TopKeepsFirst(DigitWord(m, k));
    TopKeepsFirst(DigitBits(m, k));
    FirstBitSet(DigitField(m, k, 5));
  }

  lemma FirstBitSet(v: bv32)
    ensures !IsAddress(Codeword(v | 0x80000000))
  {
  }

  // ----- the verdict

  /** Whatever the characters look like, the heuristic takes these digits for numeric. */
  ghost predicate TakenForNumeric(judge: Judge, m: seq<byte>, k: nat) {
    forall alpha: seq<byte> :: judge(alpha, Values(m, 0, 5 * k), k) == Numeric
  }

  lemma SettledCounts(m: seq<byte>, s: Pager, l: Sample, k: nat, judge: Judge)
    requires Counted(m, s, l, k) && k > 0 && (!s.decided ==> TakenForNumeric(judge, m, k))
    ensures var u := Settled(s, l, judge);
            u.decided && u.detected == Numeric && u.numeric == FirstOf(DigitText(m, 5 * k), 80) &&
            u == s.(decided := true, detected := u.detected, words := u.words, numeric := u.numeric)
  {
    hide Values, DigitText, NumericText;
    TextOfValues(m, 0, 5 * k);
  }

  lemma StopsAtIdle(s: Pager, l: Sample, received: Codeword, judge: Judge)
    requires s.idx < 7 && s.mode != Clear && Noisy(received, IDLE)
    ensures var (errors, w) := Answer(received);
            Taken(s, l, received, w, errors, judge) == Stop(Settled(s, l, judge).(mode := Clear))
  {
    hide Answer, Noisy, IsAddress, Message, Partial, NumericText, Settled;
    IdleIsCodeword();
    HeardExactly(received, IDLE);
  }

  lemma PassesIdle(s: Pager, l: Sample, received: Codeword, judge: Judge)
    requires s.idx < 7 && s.mode == Clear && Noisy(received, IDLE)
    ensures var (errors, w) := Answer(received);
            Taken(s, l, received, w, errors, judge) == Go(s.(out := IdleOutput, index := s.index + 1), l)
  {
    TakesIdle(s, l, received, judge);
  }

  /** Idle words to the end of a batch leave only their mark. */
  lemma {:induction false} IdlesPass(s: Pager, l: Sample, batch: seq<Codeword>, judge: Judge)
    requires s.idx < 7 && s.mode == Clear && s.index < BATCH && IdlesFrom(batch, s.index)
    ensures Looped(s, l, batch, judge) == (false, s.(out := IdleOutput, index := BATCH))
    decreases BATCH - s.index
  {
    hide Taken, Answer, Noisy;
    LoopedStep(s, l, batch, judge);
    PassesIdle(s, l, batch[s.index], judge);
    var t := s.(out := IdleOutput, index := s.index + 1);
    if t.index == BATCH {
      LoopedEnd(t, l, batch, judge);
    } else {
      IdlesPass(t, l, batch, judge);
    }
  }

  // ----- a batch

  function Least(a: nat, b: nat): nat { if a < b then a else b }

  /** The batch from word `i` on is the message's words from `k` on. */
  ghost predicate Brings(batch: seq<Codeword>, i: nat, m: seq<byte>, k: nat, n: nat) {
    var words := DigitWords(m, k, n);
    |batch| == BATCH && i + n == BATCH && forall x {:trigger words[x]} :: 0 <= x < n ==> Arrives(batch[i + x], words[x])
  }

  lemma BringsTail(batch: seq<Codeword>, i: nat, m: seq<byte>, k: nat, n: nat)
    requires Brings(batch, i, m, k, n) && n > 0
    ensures Arrives(batch[i], DigitWord(m, k)) && Brings(batch, i + 1, m, k + 1, n - 1)
  {
    hide Arrives, DigitWord;
    var words, rest := DigitWords(m, k, n), DigitWords(m, k + 1, n - 1);
    forall x | 0 <= x < n - 1
      ensures Arrives(batch[i + 1 + x], rest[x])
    {
      assert rest[x] == words[x + 1];
      assert Arrives(batch[i + (x + 1)], words[x + 1]);
    }
    assert Arrives(batch[i + 0], words[0]);
  }

  lemma BringsIdles(batch: seq<Codeword>, i: nat, m: seq<byte>, k: nat, n: nat)
    requires Brings(batch, i, m, k, n) && |m| <= 5 * k
    ensures IdlesFrom(batch, i)
  {
    hide Noisy, Rough, Partial, IsAddress, Uncorrectable, Encoded, CLEAN;
    IdleIsCodeword();
    var words := DigitWords(m, k, n);
    forall y | i <= y < BATCH
      ensures Noisy(batch[y], IDLE)
    {
      var x: nat := y - i;
      assert words[x] == DigitWord(m, k + x) == IDLE;
      assert Arrives(batch[i + x], words[x]);
      RoughIsNoisy(batch[y], IDLE);
    }
  }

  /** What a call has for the page: the digits so far, and whether the page is over. */
  predicate CallCounts(m: seq<byte>, s: Pager, batch: seq<Codeword>, k: nat, more: bool, u: Pager) {
    && u.decided && u.detected == Numeric && u.numeric == FirstOf(DigitText(m, 5 * Least(k, Total(m))), 80)
    && u.out == MessageOutput && SamePage(s, u) && u.idx < 7 && u.curErr <= 2
    && if more then u.mode == Clear && |m| <= 5 * k && u.index < BATCH && IdlesFrom(batch, u.index)
       else u.mode == GettingMessage && k <= Total(m)
  }

  lemma {:induction false} DigitRun(m: seq<byte>, k: nat, s: Pager, l: Sample, batch: seq<Codeword>, judge: Judge, n: nat)
    requires Counted(m, s, l, k) && Brings(batch, s.index, m, k, n) && k <= Total(m) && 0 < k + n && m != []
    requires !s.decided ==> k + n <= 15 && TakenForNumeric(judge, m, Least(k + n, Total(m)))
    ensures var (more, u) := Looped(s, l, batch, judge); CallCounts(m, s, batch, k + n, more, u)
    decreases n
  {
    hide Taken, Answer, Arrives, Counted, Brings, Looped, DigitWord, TakenForNumeric, IdlesFrom, DigitText, FirstOf, Settled, Noisy;
    CountedIsOpen(m, s, l, k);
    BringsSize(batch, s.index, m, k, n);
    if n == 0 {
      LoopedEnd(s, l, batch, judge);
      CountedIsOut(m, s, l, k);
      SettledCounts(m, s, l, k, judge);
    } else {
      LoopedStep(s, l, batch, judge);
      BringsTail(batch, s.index, m, k, n);
      if 5 * k < |m| {
        TakesDigits(m, s, l, k, batch[s.index], judge);
        var (errors, w) := Answer(batch[s.index]);
        var o := Taken(s, l, batch[s.index], w, errors, judge);
        DigitRun(m, k + 1, o.s, o.l, batch, judge, n - 1);
      } else {
        BringsIdles(batch, s.index, m, k, n);
        OneIdle(batch, s.index);
        StopsAtIdle(s, l, batch[s.index], judge);
        CountedIsOut(m, s, l, k);
        SettledCounts(m, s, l, k, judge);
      }
    }
  }

  lemma BringsSize(batch: seq<Codeword>, i: nat, m: seq<byte>, k: nat, n: nat)
    requires Brings(batch, i, m, k, n)
    ensures |batch| == BATCH && i + n == BATCH
  {
  }

  lemma CountedIsOut(m: seq<byte>, s: Pager, l: Sample, k: nat)
    requires Counted(m, s, l, k) && k > 0
    ensures s.out == MessageOutput && s.mode == GettingMessage && s.idx < 7 && s.curErr <= 2
  {
    hide Values, DigitText, FirstOf;
  }

  // ----- the calls for a batch, and the page

  /** The numeric text the caller last wrote: a state's text where it holds a numeric message. */
  function Written(states: seq<Pager>, before: seq<char>): seq<char> {
    if states == [] then before
    else
      var last := states[|states| - 1];
      if last.mode != HaveAddress && last.out == MessageOutput && last.detected == Numeric then last.numeric
      else Written(states[..|states| - 1], before)
  }

  lemma WrittenOfTwo(a: Pager, b: Pager, before: seq<char>)
    ensures Written([a], before) ==
            if a.mode != HaveAddress && a.out == MessageOutput && a.detected == Numeric then a.numeric else before
    ensures b.out == IdleOutput ==> Written([a] + [b], before) == Written([a], before)
  {
    assert ([a] + [b])[..1] == [a];
  }

  /** Behind a batch: the page is over, or open with its digits counted. */
  predicate Behind16(m: seq<byte>, u: Pager, k: nat) {
    && Inv(u)
    && if u.mode == Clear then |m| <= 5 * k
       else u.mode == GettingMessage && u.decided && u.detected == Numeric && u.curErr <= 2 && u.out == MessageOutput && k <= Total(m) &&
            u.numeric == FirstOf(DigitText(m, 5 * k), 80)
  }

  lemma CallsCount(m: seq<byte>, s: Pager, base: Pager, batch: seq<Codeword>, judge: Judge, k: nat, before: seq<char>)
    requires Inv(s) && |batch| == BATCH
    requires var (more, u) := Call(s, batch, judge); CallCounts(m, base, batch, k, more, u)
    ensures var states := Calls(s, batch, judge); var last := states[|states| - 1];
            && Behind16(m, last, k) && SamePage(base, last)
            && Written(states, before) == FirstOf(DigitText(m, 5 * Least(k, Total(m))), 80)
  {
    hide Looped, Inv, Opened, Calls, Call, IdlesFrom, DigitText, FirstOf;
    CallsStep(s, batch, judge);
    var (more, u) := Call(s, batch, judge);
    WrittenOfTwo(u, u, before);
    if more {
      CallsStep(u, batch, judge);
      SecondIdles(u, batch, judge);
      var (again, v) := Call(u, batch, judge);
      WrittenOfTwo(u, v, before);
      assert [v] + [] == [v];
    } else {
      assert [u] + [] == [u];
    }
  }

  lemma SecondIdles(u: Pager, batch: seq<Codeword>, judge: Judge)
    requires Inv(u) && |batch| == BATCH && u.mode == Clear && u.index < BATCH && IdlesFrom(batch, u.index)
    ensures u.idx < 7
    ensures var (more, v) := Call(u, batch, judge); !more && v.mode == Clear && v.out == IdleOutput && SamePage(u, v)
  {
    hide Looped, IdlesFrom;
    IdlesPass(Opened(u), NO_SAMPLE, batch, judge);
  }

  /** The states for the batches, one after the other, and the numeric text that was last written. */
  ghost function HearNumbers(s: Pager, batches: seq<seq<Codeword>>, judge: Judge, before: seq<char>): (Pager, seq<char>)
    requires Inv(s) && forall i :: 0 <= i < |batches| ==> |batches[i]| == BATCH
    decreases |batches|
  {
    hide Calls, Inv, Rewound;
    if batches == [] then (s, before)
    else
      StillValid(s);
      var states := Calls(Rewound(s), batches[0], judge);
      HearNumbers(states[|states| - 1], batches[1..], judge, Written(states, before))
  }

  ghost predicate ArrivesBatch(received: seq<Codeword>, sent: seq<Codeword>) {
    |received| == |sent| && forall i :: 0 <= i < |sent| ==> Arrives(received[i], sent[i])
  }

  ghost predicate ArrivesPage(received: seq<seq<Codeword>>, sent: seq<seq<Codeword>>) {
    |received| == |sent| && forall i :: 0 <= i < |sent| ==> ArrivesBatch(received[i], sent[i])
  }

  lemma ArrivesRest(received: seq<seq<Codeword>>, sent: seq<seq<Codeword>>)
    requires ArrivesPage(received, sent)
    ensures |received| == |sent|
    ensures sent != [] ==> ArrivesBatch(received[0], sent[0]) && ArrivesPage(received[1..], sent[1..])
  {
    hide ArrivesBatch;
    if sent != [] {
      forall i | 0 <= i < |sent| - 1
        ensures ArrivesBatch(received[1..][i], sent[1..][i])
      {
        assert ArrivesBatch(received[i + 1], sent[i + 1]);
      }
    }
  }

  lemma FirstParts(m: seq<byte>, address: bv32, func: bv32, batch: seq<Codeword>)
    requires func < 4 && ArrivesBatch(batch, FirstDigitBatch(m, address, func))
    ensures |batch| == BATCH && forall j :: 0 <= j < AddressSlot(address) ==> Noisy(batch[j], IDLE)
    ensures Noisy(batch[AddressSlot(address)], AddressWord(address, func))
    ensures Brings(batch, AddressSlot(address) + 1, m, 0, Room(address))
  {
    hide Noisy, Rough, Encoded, Frame, AddressBits, IsAddress, Partial, Uncorrectable, DigitWord, CLEAN;
    var slot, words := AddressSlot(address), DigitWords(m, 0, Room(address));
    var sent := FirstDigitBatch(m, address, func);
    IdleIsCodeword();
    forall j | 0 <= j < slot
      ensures Noisy(batch[j], IDLE)
    {
      assert sent[j] == IDLE;
      RoughIsNoisy(batch[j], IDLE);
    }
    assert sent[slot] == AddressWord(address, func);
    AddressIsAddress(address, func);
    RoughIsNoisy(batch[slot], AddressWord(address, func));
    forall x | 0 <= x < |words|
      ensures Arrives(batch[slot + 1 + x], words[x])
    {
      assert sent[slot + 1 + x] == words[x];
    }
  }

  lemma NothingCounted(m: seq<byte>, s: Pager, l: Sample)
    requires s.idx < 7 && s.mode == HaveAddress && !s.decided && s.curErr == 0 && l == Sample([], 0, [], false)
    ensures Counted(m, s, l, 0)
  {
  }

  lemma FirstDigits(m: seq<byte>, address: bv32, func: bv32, s: Pager, batch: seq<Codeword>, judge: Judge, before: seq<char>)
    requires Inv(s) && s.mode == Clear && Addressable(address, func) && m != []
    requires ArrivesBatch(batch, FirstDigitBatch(m, address, func))
    requires TakenForNumeric(judge, m, Least(Room(address), Total(m)))
    ensures |batch| == BATCH && Inv(Rewound(s))
    ensures var states := Calls(Rewound(s), batch, judge); var last := states[|states| - 1];
            && Behind16(m, last, Room(address)) && last.address == address && last.func == func
            && Written(states, before) == FirstOf(DigitText(m, 5 * Least(Room(address), Total(m))), 80)
  {
    hide Noisy, ArrivesBatch, Calls, Looped, Addressable, Linked, Brings, Frame, AddressWord, Counted, CallCounts, Behind16,
         TakenForNumeric, FirstDigitBatch, DigitText, FirstOf, Written;
    RewoundKeeps(s);
    AddressableFits(address, func);
    FirstParts(m, address, func, batch);
    OpenedKeeps(Rewound(s));
    var u, l := AddressRun([], address, func, Opened(Rewound(s)), NO_SAMPLE, batch, [], judge);
    NothingCounted(m, u, l);
    DigitRun(m, 0, u, l, batch, judge, Room(address));
    CallsCount(m, Rewound(s), u, batch, judge, Room(address), before);
  }

  lemma StillCounted(m: seq<byte>, s: Pager, k: nat)
    requires Behind16(m, s, k) && s.mode != Clear
    ensures Inv(Rewound(s)) && Opened(Rewound(s)).idx < 7 && Opened(Rewound(s)).decided && Opened(Rewound(s)).index == 0
    ensures Counted(m, Opened(Rewound(s)), NO_SAMPLE, k) && SamePage(s, Opened(Rewound(s))) && k <= Total(m)
  {
    hide DigitText, FirstOf, Values;
  }

  lemma LaterDigits(m: seq<byte>, k: nat, s: Pager, batch: seq<Codeword>, judge: Judge, before: seq<char>)
    requires Behind16(m, s, k) && 5 * k < |m| && ArrivesBatch(batch, DigitWords(m, k, BATCH))
    ensures |batch| == BATCH && Inv(Rewound(s))
    ensures var states := Calls(Rewound(s), batch, judge); var last := states[|states| - 1];
            && Behind16(m, last, k + BATCH) && SamePage(s, last)
            && Written(states, before) == FirstOf(DigitText(m, 5 * Least(k + BATCH, Total(m))), 80)
  {
    hide Arrives, Calls, Looped, Counted, CallCounts, DigitText, FirstOf, Written, DigitWord, TakenForNumeric;
    OpenBehind(m, s, k);
    StillCounted(m, s, k);
    var s0 := Opened(Rewound(s));
    var words := DigitWords(m, k, BATCH);
    forall x {:trigger words[x]} | 0 <= x < BATCH
      ensures Arrives(batch[0 + x], words[x])
    {
      assert Arrives(batch[x], words[x]);
    }
    DigitRun(m, k, s0, NO_SAMPLE, batch, judge, BATCH);
    CallsCount(m, Rewound(s), s0, batch, judge, k + BATCH, before);
  }

  lemma OpenBehind(m: seq<byte>, s: Pager, k: nat)
    requires Behind16(m, s, k) && 5 * k < |m|
    ensures s.mode != Clear
  {
    hide DigitText, FirstOf;
  }

  lemma BehindIsValid(m: seq<byte>, s: Pager, k: nat)
    requires Behind16(m, s, k)
    ensures Inv(s)
  {
    hide DigitText, FirstOf;
  }

  /** The batches behind the first one. */
  lemma {:induction false} MoreDigits(m: seq<byte>, k: nat, s: Pager, received: seq<seq<Codeword>>, judge: Judge, before: seq<char>)
    requires Behind16(m, s, k) && ArrivesPage(received, MoreDigitBatches(m, k))
    ensures Inv(s) && forall i :: 0 <= i < |received| ==> |received[i]| == BATCH
    ensures var (u, shown) := HearNumbers(s, received, judge, before);
            SamePage(s, u) && shown == if 5 * k < |m| then FirstOf(DigitText(m, 5 * Total(m)), 80) else before
    decreases |m| - 5 * k
  {
    hide ArrivesBatch, ArrivesPage, Calls, Inv, Behind16, DigitText, FirstOf, Written, DigitWords;
    BehindIsValid(m, s, k);
    ArrivesRest(received, MoreDigitBatches(m, k));
    if 5 * k < |m| {
      assert MoreDigitBatches(m, k)[1..] == MoreDigitBatches(m, k + BATCH);
      LaterDigits(m, k, s, received[0], judge, before);
      var states := Calls(Rewound(s), received[0], judge);
      MoreDigits(m, k + BATCH, states[|states| - 1], received[1..], judge, Written(states, before));
      assert |m| <= 5 * (k + BATCH) ==> Least(k + BATCH, Total(m)) == Total(m);
    }
  }

  /** The numeric page round trip. Once the heuristic takes the digits of the first batch for numeric, and with up to two
      errors behind the first bit of every message word, the caller is left with the characters of the whole message, each
      as its digit is shown, with spaces to a multiple of five and cut at eighty; and with the address and the function. */
  lemma NumericPageIsHeard(m: seq<byte>, address: bv32, func: bv32, s: Pager, received: seq<seq<Codeword>>, judge: Judge)
    requires Inv(s) && s.mode == Clear && Addressable(address, func) && m != []
    requires ArrivesPage(received, DigitBatches(m, address, func))
    requires TakenForNumeric(judge, m, Least(Room(address), Total(m)))
    ensures forall i :: 0 <= i < |received| ==> |received[i]| == BATCH
    ensures var (u, shown) := HearNumbers(s, received, judge, []);
            u.address == address && u.func == func && shown == FirstOf(DigitText(m, 5 * Total(m)), 80)
  {
    hide ArrivesBatch, ArrivesPage, Calls, Inv, Behind16, DigitText, FirstOf, Written, FirstDigitBatch, MoreDigitBatches, Frame,
         Addressable, TakenForNumeric;
    var sent := DigitBatches(m, address, func);
    ArrivesRest(received, sent);
    assert sent[1..] == MoreDigitBatches(m, Room(address));
    FirstDigits(m, address, func, s, received[0], judge, []);
    var states := Calls(Rewound(s), received[0], judge);
    MoreDigits(m, Room(address), states[|states| - 1], received[1..], judge, Written(states, []));
    assert |m| <= 5 * Room(address) ==> Least(Room(address), Total(m)) == Total(m);
  }
}
