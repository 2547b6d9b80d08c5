/** The POCSAG page encoder (pocsag_encode in src/apps/pocsag_app.hpp): an address word in its frame, then
    the message as 7-bit characters packed across the 20-bit fields of the words that follow. */
module PocsagTx {
  import opened Bits
  import opened PocsagWord
  import opened PocsagEcc

  const SYNC := Codeword(0x7CD215D8)
  const IDLE := Codeword(0x7A89C197)
  const PREAMBLE := Codeword(0xAAAAAAAA)
  const PREAMBLE_WORDS: nat := 18
  const BATCH: nat := 16

  // ----- characters on the air

  /** Seven bits in the opposite order, by swapping nibbles, pairs and neighbours. */
  function Reverse(c: byte): byte {
    var a := ((c & 0xF0) >> 4) | ((c & 0x0F) << 4);
    var b := ((a & 0xCC) >> 2) | ((a & 0x33) << 2);
    ((b & 0xAA) >> 2) | (b & 0x55)
  }

  lemma ReverseTwice(c: byte)
    requires c < 0x80
    ensures Reverse(c) < 0x80 && Reverse(Reverse(c)) == c
    ensures Reverse(c) == 0 <==> c == 0
  {
  }

  /** Bit `i` of a character becomes bit 6 - i: its lowest bit goes out first. */
  lemma ReverseMirrors(c: byte, i: bv8)
    requires c < 0x80 && i < 7
    ensures (Reverse(c) >> (6 - i)) & 1 == (c >> i) & 1
  {
  }

  function Low7(c: byte): (r: byte)
    ensures r < 0x80
  {
    c & 0x7F
  }

  /** Character `i` of a message; NUL behind its end. */
  function CharAt(m: seq<byte>, i: nat): (r: byte)
    ensures r < 0x80
  {
    if i < |m| then Low7(m[i]) else 0
  }

  // ----- packing

  /** The word being filled, the bit the next character goes below, the characters taken so far and the
      last one, as sent. */
  datatype Tx = Tx(codeword: bv32, bitIdx: nat, charIdx: nat, last: byte)

  const START := Tx(0, 31, 0, 0)

  function Placed(codeword: bv32, y: byte, bitIdx: nat): bv32
    requires bitIdx <= 31
  {
    codeword | ((y as bv32) << bitIdx)
  }

  /** One more character, which may run over the end of the field. */
  function PutChar(m: seq<byte>, t: Tx): Tx
    requires 7 <= t.bitIdx <= 38
  {
    var y := Reverse(CharAt(m, t.charIdx));
    Tx(Placed(t.codeword, y, t.bitIdx - 7), t.bitIdx - 7, t.charIdx + 1, y)
  }

  /** Characters until the field is full. */
  function Filled(m: seq<byte>, t: Tx): (r: Tx)
    requires 11 < t.bitIdx <= 31
    ensures 4 < r.bitIdx <= 11 && r.charIdx > t.charIdx
    decreases t.bitIdx
  {
    var u := PutChar(m, t);
    if u.bitIdx > 11 then Filled(m, u) else u
  }

  /** The field cut to size and marked as a message. */
  function Sealed(codeword: bv32): Codeword { Codeword((codeword & 0x7FFFF800) | 0x80000000) }

  /** What is left of the last character starts the next word. */
  function Carried(t: Tx): (r: Tx)
    requires 4 < t.bitIdx <= 11
    ensures 24 < r.bitIdx <= 31
  {
    if t.bitIdx != 11 then Tx(Placed(0, t.last, 20 + t.bitIdx), 20 + t.bitIdx, t.charIdx, t.last)
    else Tx(0, 31, t.charIdx, t.last)
  }

  predicate HasMore(m: seq<byte>, t: Tx) { t.charIdx < |m| || t.last != 0 }

  predicate Ready(t: Tx) { 24 < t.bitIdx <= 31 }

  function NextTx(m: seq<byte>, t: Tx): (r: Tx)
    requires Ready(t)
    ensures Ready(r) && r.charIdx >= t.charIdx
    ensures HasMore(m, t) ==> r.charIdx > t.charIdx
  {
    if HasMore(m, t) then Carried(Filled(m, t)) else t
  }

  function WordFor(m: seq<byte>, t: Tx): Codeword
    requires Ready(t)
  {
    if HasMore(m, t) then Encoded(Sealed(Filled(m, t).codeword)) else IDLE
  }

  /** The encoder's state behind `n` words, and those words. */
  function TxAfter(m: seq<byte>, t: Tx, n: nat): (r: Tx)
    requires Ready(t)
    ensures Ready(r) && r.charIdx >= t.charIdx
    ensures n > 0 && HasMore(m, t) ==> r.charIdx > t.charIdx
    decreases n
  {
    if n == 0 then t else NextTx(m, TxAfter(m, t, n - 1))
  }

  function Words(m: seq<byte>, t: Tx, n: nat): (r: seq<Codeword>)
    requires Ready(t)
    ensures |r| == n
    decreases n
  {
    if n == 0 then [] else Words(m, t, n - 1) + [WordFor(m, TxAfter(m, t, n - 1))]
  }

  // ----- the page

  /** The information bits of an address word. */
  function AddressBits(address: bv32, func: bv32): Codeword {
    Codeword(((address & 0x1FFFF8) << 10) | (func << 11))
  }

  /** The address word's place in its batch. */
  function AddressSlot(address: bv32): (r: nat)
    ensures r <= 14 && r % 2 == 0
  {
    2 * Frame(address)
  }

  function Frame(address: bv32): (r: nat)
    ensures r <= 7
  {
    FrameFits(address);
    (address & 7) as nat
  }

  lemma FrameFits(address: bv32)
    ensures (address & 7) as nat <= 7
  {
  }

  function Idles(n: nat): (r: seq<Codeword>)
    ensures |r| == n
  {
    seq(n, _ => IDLE)
  }

  /** How many words of the first batch are left for the message. */
  function Room(address: bv32): (r: nat)
    ensures 1 <= r <= 15
  {
    15 - AddressSlot(address)
  }

  function FirstBatch(m: seq<byte>, address: bv32, func: bv32): (r: seq<Codeword>)
    ensures |r| == BATCH
  {
    Idles(AddressSlot(address)) + [Encoded(AddressBits(address, func))] + Words(m, START, Room(address))
  }

  /** The batches behind the first one: as long as a character has not been taken, sixteen more words. */
  function MoreBatches(m: seq<byte>, t: Tx): (r: seq<seq<Codeword>>)
    requires Ready(t)
    ensures forall i :: 0 <= i < |r| ==> |r[i]| == BATCH
    decreases |m| - t.charIdx
  {
    if t.charIdx < |m| then [Words(m, t, BATCH)] + MoreBatches(m, TxAfter(m, t, BATCH)) else []
  }

  function Batches(m: seq<byte>, address: bv32, func: bv32): seq<seq<Codeword>> {
    [FirstBatch(m, address, func)] + MoreBatches(m, TxAfter(m, START, Room(address)))
  }

  /** Batches on the air, each behind a sync word. */
  function Sent(batches: seq<seq<Codeword>>): seq<Codeword> {
    if batches == [] then [] else [SYNC] + batches[0] + Sent(batches[1..])
  }

  /** ADDRESS_ONLY: the address word among idle words. */
  function TonePage(address: bv32, func: bv32): seq<Codeword> {
    [SYNC] + Idles(AddressSlot(address)) + [Encoded(AddressBits(address, func))] + Idles(15 - AddressSlot(address))
  }

  // ----- digits

  /** The value of a digit or of one of the six signs; anything else is a space. */
  function DigitValue(c: byte): (v: byte)
    ensures v < 16
  {
    if 0x30 <= c <= 0x39 then c - 0x30
    else if c == 0x53 then 10
    else if c == 0x55 then 11
    else if c == 0x20 then 12
    else if c == 0x2D then 13
    else if c == 0x5D then 14
    else if c == 0x5B then 15
    else 12
  }

  /** Four bits in the opposite order, by swapping pairs and neighbours. */
  function Turned(v: byte): byte {
    var a := ((v & 0x0C) >> 2) | ((v & 0x03) << 2);
    ((a & 0x0A) >> 1) | ((a & 0x05) << 1)
  }

  /** get_digit_code, and spaces behind the message. */
  function CodeAt(m: seq<byte>, i: nat): byte { if i < |m| then Turned(DigitValue(m[i])) else 3 }

  /** The first `n` of the five digits of message word `k`, in their places. */
  function DigitField(m: seq<byte>, k: nat, n: nat): bv32
    requires n <= 5
  {
    if n == 0 then 0 else Placed(DigitField(m, k, n - 1), CodeAt(m, 5 * k + n - 1), 31 - 4 * n)
  }

  function AsMessage(field: bv32): Codeword { Codeword(field | 0x80000000) }

  function DigitBits(m: seq<byte>, k: nat): Codeword { AsMessage(DigitField(m, k, 5)) }

  function DigitWord(m: seq<byte>, k: nat): Codeword { if 5 * k < |m| then Encoded(DigitBits(m, k)) else IDLE }

  function DigitWords(m: seq<byte>, k: nat, n: nat): (r: seq<Codeword>)
    ensures |r| == n
  {
    seq(n, i requires 0 <= i < n => DigitWord(m, k + i))
  }

  function MoreDigitBatches(m: seq<byte>, k: nat): (r: seq<seq<Codeword>>)
    ensures forall i :: 0 <= i < |r| ==> |r[i]| == BATCH
    decreases |m| - 5 * k
  {
    if 5 * k < |m| then [DigitWords(m, k, BATCH)] + MoreDigitBatches(m, k + BATCH) else []
  }

  function FirstDigitBatch(m: seq<byte>, address: bv32, func: bv32): (r: seq<Codeword>)
    ensures |r| == BATCH
  {
    Idles(AddressSlot(address)) + [Encoded(AddressBits(address, func))] + DigitWords(m, 0, Room(address))
  }

  function DigitBatches(m: seq<byte>, address: bv32, func: bv32): seq<seq<Codeword>> {
    [FirstDigitBatch(m, address, func)] + MoreDigitBatches(m, Room(address))
  }

  /** A page without a message is a page with an empty one. */
  lemma TonePageIsEmptyPage(address: bv32, func: bv32)
    ensures TonePage(address, func) == Sent(Batches([], address, func))
  {
    hide Encoded, AddressBits, Frame, AddressSlot, Words, TxAfter, Idles;
    NoMessageWords(Room(address));
    var first := FirstBatch([], address, func);
    SentPush(first, []);
    NothingSent();
    FourTogether([SYNC], Idles(AddressSlot(address)), [Encoded(AddressBits(address, func))], Idles(Room(address)));
  }

  lemma FourTogether<T>(a: seq<T>, b: seq<T>, c: seq<T>, d: seq<T>)
    ensures a + (b + c + d) + [] == a + b + c + d
  {
  }

  lemma {:induction false} NoMessageWords(n: nat)
    ensures TxAfter([], START, n) == START && Words([], START, n) == Idles(n)
  {
    hide Filled, Encoded;
    if n > 0 {
      NoMessageWords(n - 1);
      WordsPush([], START, n - 1);
      assert Idles(n) == Idles(n - 1) + [IDLE];
    }
  }

  lemma WordsPush(m: seq<byte>, t: Tx, n: nat)
    requires Ready(t)
    ensures Words(m, t, n + 1) == Words(m, t, n) + [WordFor(m, TxAfter(m, t, n))]
    ensures TxAfter(m, t, n + 1) == NextTx(m, TxAfter(m, t, n))
  {
  }

  class Encoder {
    const ecc: EccContainer

    constructor (ecc: EccContainer)
      ensures this.ecc == ecc
    {
      this.ecc := ecc;
    }

    /** One slot of the message loop. */
    method EncodeSlot(m: seq<byte>, t: Tx) returns (word: Codeword, u: Tx)
      requires ecc.Valid() && Ready(t)
      ensures word == WordFor(m, t) && u == NextTx(m, t)
    {
      hide Reverse, Placed, Encoded, CharAt, Sealed;
      u := t;
      if t.charIdx < |m| || t.last != 0 {
        ghost var whole := Filled(m, t);
        u := PutChar(m, u);
        while u.bitIdx > 11
          invariant 4 < u.bitIdx <= 31
          invariant whole == if u.bitIdx > 11 then Filled(m, u) else u
          decreases u.bitIdx
        {
          u := PutChar(m, u);
        }
        word := Sealed(u.codeword);
        word := ecc.Encode(word);
        if u.bitIdx != 11 {
          u := Tx(Placed(0, u.last, 20 + u.bitIdx), 20 + u.bitIdx, u.charIdx, u.last);
        } else {
          u := Tx(0, 31, u.charIdx, u.last);
        }
      } else {
        word := IDLE;
      }
    }

    method Lead() returns (codewords: seq<Codeword>)
      ensures codewords == seq(PREAMBLE_WORDS, _ => PREAMBLE)
    {
      codewords := [];
      for b := 0 to PREAMBLE_WORDS
        invariant codewords == seq(b, _ => PREAMBLE)
      {
        codewords := codewords + [PREAMBLE];
      }
    }

    /** Idle words, the address word, and the slots behind it. */
    method AddressBatch(func: bv32, m: seq<byte>, address: bv32) returns (batch: seq<Codeword>, t: Tx)
      requires ecc.Valid()
      ensures batch == FirstBatch(m, address, func) && t == TxAfter(m, START, Room(address))
    {
      hide Encoded, Frame, AddressBits, WordFor, Words, TxAfter;
      var word := ecc.Encode(AddressBits(address, func));
      var slot := AddressSlot(address);
      batch := [];
      for c := 0 to slot
        invariant batch == Idles(c)
      {
        batch := batch + [IDLE];
      }
      batch := batch + [word];
      var message;
      message, t := MessageSlots(m, START, 15 - slot);
      batch := batch + message;
    }

    /** pocsag_encode for an alphanumeric page. */
    method EncodeAlpha(func: bv32, m: seq<byte>, address: bv32) returns (codewords: seq<Codeword>)
      requires ecc.Valid()
      ensures codewords == seq(PREAMBLE_WORDS, _ => PREAMBLE) + Sent(Batches(m, address, func))
    {
      hide HasMore, NextTx, WordFor, Words, TxAfter, FirstBatch, Sent;
      codewords := Lead();
      ghost var lead := codewords;
      var first, t := AddressBatch(func, m, address);
      codewords := codewords + [SYNC];
      codewords := codewords + first;
      SentPush(first, MoreBatches(m, t));
      Regroup(lead, [SYNC], first, Sent(MoreBatches(m, t)));
      while t.charIdx < |m|
        invariant Ready(t)
        invariant codewords + Sent(MoreBatches(m, t)) == lead + Sent(Batches(m, address, func))
        decreases |m| - t.charIdx
      {
        ghost var before, start := codewords, t;
        var message;
        codewords := codewords + [SYNC];
        message, t := MessageSlots(m, t, BATCH);
        codewords := codewords + message;
        SlotsAdvance(m, start, BATCH);
        SentPush(message, MoreBatches(m, t));
        Regroup(before, [SYNC], message, Sent(MoreBatches(m, t)));
      }
      NothingSent();
      assert codewords + [] == codewords;
    }

    method MessageSlots(m: seq<byte>, t: Tx, n: nat) returns (words: seq<Codeword>, u: Tx)
      requires ecc.Valid() && Ready(t)
      ensures words == Words(m, t, n) && u == TxAfter(m, t, n)
    {
      hide WordFor, NextTx;
      words, u := [], t;
      for c := 0 to n
        invariant words == Words(m, t, c) && u == TxAfter(m, t, c)
      {
        WordsPush(m, t, c);
        var word;
        word, u := EncodeSlot(m, u);
        words := words + [word];
      }
    }

    /** One slot of a numeric message. */
    method NumericSlot(m: seq<byte>, k: nat) returns (word: Codeword)
      requires ecc.Valid()
      ensures word == DigitWord(m, k)
    {
      hide Encoded, Placed, Turned, DigitValue, DigitField;
      if 5 * k < |m| {
        var field: bv32 := 0;
        NoDigitsYet(m, k);
        var bitIdx, n := 31, 0;
        while bitIdx > 11
          invariant 0 <= n <= 5 && bitIdx == 31 - 4 * n && field == DigitField(m, k, n)
          decreases bitIdx
        {
          bitIdx := bitIdx - 4;
          var code := if 5 * k + n < |m| then Turned(DigitValue(m[5 * k + n])) else 3;
          DigitAdded(m, k, n);
          field := Placed(field, code, bitIdx);
          n := n + 1;
        }
        word := ecc.Encode(AsMessage(field));
      } else {
        word := IDLE;
      }
    }

    method NumericSlots(m: seq<byte>, k: nat, n: nat) returns (words: seq<Codeword>)
      requires ecc.Valid()
      ensures words == DigitWords(m, k, n)
    {
      hide DigitWord;
      words := [];
      for c := 0 to n
        invariant words == DigitWords(m, k, c)
      {
        var word := NumericSlot(m, k + c);
        words := words + [word];
      }
    }

    /** pocsag_encode for a numeric page. */
    method EncodeNumeric(func: bv32, m: seq<byte>, address: bv32) returns (codewords: seq<Codeword>)
      requires ecc.Valid()
      ensures codewords == seq(PREAMBLE_WORDS, _ => PREAMBLE) + Sent(DigitBatches(m, address, func))
    {
      hide DigitWords, Encoded, Frame, AddressBits, Sent;
      codewords := Lead();
      ghost var lead := codewords;
      var word := ecc.Encode(AddressBits(address, func));
      var slot := AddressSlot(address);
      codewords := codewords + [SYNC];
      var first := [];
      for c := 0 to slot
        invariant first == Idles(c)
      {
        first := first + [IDLE];
      }
      first := first + [word];
      var k := 15 - slot;
      var message := NumericSlots(m, 0, k);
      first := first + message;
      codewords := codewords + first;
      SentPush(first, MoreDigitBatches(m, k));
      Regroup(lead, [SYNC], first, Sent(MoreDigitBatches(m, k)));
      while 5 * k < |m|
        invariant codewords + Sent(MoreDigitBatches(m, k)) == lead + Sent(DigitBatches(m, address, func))
        decreases |m| - 5 * k
      {
        ghost var before := codewords;
        codewords := codewords + [SYNC];
        message := NumericSlots(m, k, BATCH);
        codewords := codewords + message;
        k := k + BATCH;
        SentPush(message, MoreDigitBatches(m, k));
        Regroup(before, [SYNC], message, Sent(MoreDigitBatches(m, k)));
      }
      NothingSent();
      assert codewords + [] == codewords;
    }

    /** pocsag_encode for a page without a message. */
    method EncodeTone(func: bv32, address: bv32) returns (codewords: seq<Codeword>)
      requires ecc.Valid()
      ensures codewords == seq(PREAMBLE_WORDS, _ => PREAMBLE) + TonePage(address, func)
    {
      hide Encoded, Frame, AddressBits;
      codewords := Lead();
      ghost var lead := codewords;
      var word := ecc.Encode(AddressBits(address, func));
      var slot := AddressSlot(address);
      codewords := codewords + [SYNC];
      for c := 0 to BATCH
        invariant codewords == lead + [SYNC] + if c <= slot then Idles(c) else Idles(slot) + [word] + Idles(c - slot - 1)
      {
        codewords := codewords + [if c == slot then word else IDLE];
      }
    }
  }

  lemma NoDigitsYet(m: seq<byte>, k: nat)
    ensures DigitField(m, k, 0) == 0
  {
  }

  lemma DigitAdded(m: seq<byte>, k: nat, n: nat)
    requires n < 5
    ensures DigitField(m, k, n + 1) ==
            Placed(DigitField(m, k, n), if 5 * k + n < |m| then Turned(DigitValue(m[5 * k + n])) else 3, 27 - 4 * n)
  {
    hide Placed, Turned, DigitValue;
  }

  lemma Regroup<T>(a: seq<T>, b: seq<T>, c: seq<T>, d: seq<T>)
    ensures a + b + c + d == a + (b + c + d)
  {
  }

  lemma NothingSent()
    ensures Sent([]) == []
  {
  }

  lemma SentPush(first: seq<Codeword>, rest: seq<seq<Codeword>>)
    ensures Sent([first] + rest) == [SYNC] + first + Sent(rest)
  {
  }

  lemma SlotsAdvance(m: seq<byte>, t: Tx, n: nat)
    requires Ready(t) && t.charIdx < |m| && n > 0
    ensures TxAfter(m, t, n).charIdx > t.charIdx
  {
  }
}
