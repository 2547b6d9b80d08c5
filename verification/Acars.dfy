/** The ACARS block framer and block check (src/apps/ui_acars_rx.hpp). */
module Acars {
  import opened Bits

  datatype Octet = Octet(v: byte)

  const SYN := Octet(0x16)
  const SOH := Octet(0x01)
  const ETX := Octet(0x83)
  const ETB := Octet(0x97)
  const DEL := Octet(0x7F)

  const CAPACITY: nat := 250
  const RESET_LENGTH: nat := 240
  const MAX_PARITY_ERRORS: nat := 4

  // ----- parity

  function One(bit: bool): nat { if bit then 1 else 0 }

  /** How many bits of an octet are set. */
  function PopCount(b: byte): (n: nat)
    ensures n <= 8
  {
    One(b & 0x01 != 0) + One(b & 0x02 != 0) + One(b & 0x04 != 0) + One(b & 0x08 != 0) +
    One(b & 0x10 != 0) + One(b & 0x20 != 0) + One(b & 0x40 != 0) + One(b & 0x80 != 0)
  }

  predicate ParityOk(c: Octet) { PopCount(c.v) % 2 == 1 }

  /** acars_add_parity. */
  function AddParity(c: byte): Octet {
    if PopCount(c & 0x7F) % 2 == 1 then Octet(c & 0x7F) else Octet((c & 0x7F) | 0x80)
  }

  lemma AddedParity(c: byte)
    ensures ParityOk(AddParity(c)) && AddParity(c).v & 0x7F == c & 0x7F
    ensures AddParity(0x03) == ETX && AddParity(0x17) == ETB
  {
    TopBitCounts(c & 0x7F);
  }

  lemma TopBitCounts(b: byte)
    requires b & 0x80 == 0
    ensures PopCount(b | 0x80) == PopCount(b) + 1 && (b | 0x80) & 0x7F == b
  {
  }

  // ----- the decoder

  datatype Order = LsbFirst | MsbFirst

  datatype State = WaitSyn | Syn2 | Soh1 | Text | Crc1 | Crc2 | End

  /** Everything after SOH up to and including ETX or ETB, the two check octets, and the count of bad characters. */
  datatype Block = Block(message: seq<Octet>, crcHigh: Octet, crcLow: Octet, parityErrors: nat)

  datatype Decoder = Decoder(order: Order, state: State, data: Octet, bitCount: nat, message: seq<Octet>,
                             crcHigh: Octet, crcLow: Octet, parityErrors: nat, emitted: seq<Block>)

  const NUL := Octet(0)

  function Reset(d: Decoder): Decoder {
    d.(data := NUL, bitCount := 0, state := WaitSyn, message := [], crcHigh := NUL, crcLow := NUL, parityErrors := 0)
  }

  function Cleared(d: Decoder): Decoder { d.(data := NUL, bitCount := 0) }

  function Fresh(order: Order): Decoder { Decoder(order, WaitSyn, NUL, 0, [], NUL, NUL, 0, []) }

  function ShiftIn(order: Order, o: Octet, bit: bool): Octet {
    if order == MsbFirst then Octet(ShiftLeft(o.v, bit)) else Octet(ShiftRight(o.v, bit))
  }

  function AddBit(d: Decoder, bit: bool): Decoder {
    d.(data := ShiftIn(d.order, d.data, bit), bitCount := d.bitCount + 1)
  }

  function Emit(d: Decoder): Decoder {
    d.(emitted := d.emitted + [Block(d.message, d.crcHigh, d.crcLow, d.parityErrors)])
  }

  /** WSYN: a one-bit sliding window until a SYN is found. */
  function TakeSyn(d: Decoder): Decoder {
    if d.data == SYN then Cleared(d.(state := Syn2)) else d.(bitCount := d.bitCount - (if d.bitCount > 0 then 1 else 0))
  }

  function TakeSyn2(d: Decoder): Decoder {
    if d.data == SYN then Cleared(d.(state := Soh1)) else Reset(d)
  }

  function TakeSoh(d: Decoder): Decoder {
    if d.data == SOH then Reset(d).(state := Text) else Reset(d)
  }

  function Pushed(d: Decoder): Decoder {
    d.(message := if |d.message| < CAPACITY then d.message + [d.data] else d.message,
       parityErrors := if ParityOk(d.data) then d.parityErrors else d.parityErrors + 1)
  }

  /** A text character. The flag is set when the DEL shortcut goes straight on to the second check octet. */
  function TakeText(d: Decoder): (r: (bool, Decoder))
    ensures r.0 ==> r.1.state == Crc2 && r.1.bitCount == d.bitCount
  {
    var ch, m := d.data, Pushed(d);
    if m.parityErrors > MAX_PARITY_ERRORS && !ParityOk(ch) then (false, Reset(m))
    else if ch == ETX || ch == ETB then (false, Cleared(m.(state := Crc1)))
    else
      var r := if |m.message| > RESET_LENGTH then Reset(m) else m;
      if |r.message| > 20 && ch == DEL then
        var n := |r.message| - 3;
        (true, r.(crcHigh := r.message[n], crcLow := r.message[n + 1], message := r.message[..n], state := Crc2,
                  data := r.message[n + 1]))
      else (false, Cleared(r))
  }

  function TakeCrc2(d: Decoder): Decoder {
    Cleared(Reset(Emit(d.(crcLow := d.data))).(state := End))
  }

  /** A whole character: the tests run in the source's order, so that a state entered on the way is tested
      again where the bit count still stands at eight. */
  function TakeOctet(d: Decoder): Decoder {
    match d.state
    case WaitSyn => TakeSyn(d)
    case Syn2 => TakeSyn2(d)
    case Soh1 => TakeSoh(d)
    case Text => var (shortcut, t) := TakeText(d); if shortcut then TakeCrc2(t) else t
    case Crc1 => Cleared(d.(crcHigh := d.data, state := Crc2))
    case Crc2 => TakeCrc2(d)
    case End => Reset(d)
  }

  function Feed(d: Decoder, bit: bool): Decoder {
    var t := AddBit(d, bit);
    if t.bitCount == 8 then TakeOctet(t) else t
  }

  function Run(d: Decoder, bits: seq<bool>): Decoder {
    if bits == [] then d else Feed(Run(d, bits[..|bits| - 1]), bits[|bits| - 1])
  }

  lemma RunPush(d: Decoder, bits: seq<bool>, bit: bool)
    ensures Run(d, bits + [bit]) == Feed(Run(d, bits), bit)
  {
    assert (bits + [bit])[..|bits|] == bits;
  }

  lemma {:induction false} RunAppend(d: Decoder, a: seq<bool>, b: seq<bool>)
    ensures Run(d, a + b) == Run(Run(d, a), b)
    decreases |b|
  {
    hide Feed;
    if b == [] {
      assert a + b == a;
    } else {
      var n := |b| - 1;
      assert (a + b)[..|a| + n] == a + b[..n];
      RunAppend(d, a, b[..n]);
    }
  }

  // ----- what every bit stream keeps

  predicate GoodBlock(b: Block) { |b.message| <= RESET_LENGTH + 1 && b.parityErrors <= MAX_PARITY_ERRORS }

  /** At most 240 characters while text is collected, 241 with the terminator, and never more than four bad ones. */
  predicate Inv(d: Decoder) {
    && d.bitCount < 8
    && |d.message| <= RESET_LENGTH + 1
    && (d.state == Text ==> |d.message| <= RESET_LENGTH)
    && d.parityErrors <= MAX_PARITY_ERRORS
    && (forall i :: 0 <= i < |d.emitted| ==> GoodBlock(d.emitted[i]))
  }

  lemma FeedKeepsInv(d: Decoder, bit: bool)
    requires Inv(d)
    ensures Inv(Feed(d, bit)) && d.emitted <= Feed(d, bit).emitted
  {
    hide ShiftIn, ParityOk;
  }

  /** Safety over every bit stream whatsoever, from any state within the bounds. */
  lemma {:induction false} EveryRunIsBounded(d: Decoder, bits: seq<bool>)
    requires Inv(d)
    ensures Inv(Run(d, bits)) && d.emitted <= Run(d, bits).emitted
  {
    hide Inv, Feed;
    if bits != [] {
      EveryRunIsBounded(d, bits[..|bits| - 1]);
      FeedKeepsInv(Run(d, bits[..|bits| - 1]), bits[|bits| - 1]);
    }
  }

  lemma FreshIsBounded(order: Order)
    ensures Inv(Fresh(order))
  {
  }

  /** From the start: whatever is fed to a fresh decoder, at most 241 characters and four bad ones are held, and every
      block handed over keeps to the same bounds. */
  lemma EveryStreamIsBounded(order: Order, bits: seq<bool>)
    ensures var d := Run(Fresh(order), bits);
            && Inv(d) && |d.message| <= 241 && d.parityErrors <= 4 && d.bitCount < 8
            && (forall i :: 0 <= i < |d.emitted| ==> |d.emitted[i].message| <= 241 && d.emitted[i].parityErrors <= 4)
  {
    hide Run;
    FreshIsBounded(order);
    EveryRunIsBounded(Fresh(order), bits);
  }

  // ----- the decoder as the program writes it

  class AcarsBitDecoder {
    var order: Order
    var state: State
    var data: byte
    var bitCount: nat
    var message: seq<Octet>
    var crcHigh: Octet
    var crcLow: Octet
    var parityErrors: nat
    /** The blocks the handler has been called with. */
    var emitted: seq<Block>
    var bitsFed: nat

    ghost function Value(): Decoder
      reads this
    {
      Decoder(order, state, Octet(data), bitCount, message, crcHigh, crcLow, parityErrors, emitted)
    }

    constructor (order: Order)
      ensures Value() == Fresh(order) && bitsFed == 0
    {
      this.order, state, data, bitCount, message, crcHigh, crcLow, parityErrors := order, WaitSyn, 0, 0, [], NUL, NUL, 0;
      emitted, bitsFed := [], 0;
    }

    method DoReset()
      modifies this
      ensures Value() == Reset(old(Value())) && bitsFed == old(bitsFed)
    {
      data, bitCount, state, message, crcHigh, crcLow, parityErrors := 0, 0, WaitSyn, [], NUL, NUL, 0;
    }

    method ClearByte()
      modifies this
      ensures Value() == Cleared(old(Value())) && bitsFed == old(bitsFed)
    {
      data, bitCount := 0, 0;
    }

    method PutBit(bit: bool)
      modifies this
      ensures Value() == AddBit(old(Value()), bit) && bitsFed == old(bitsFed)
    {
      hide ShiftLeft, ShiftRight;
      if order == MsbFirst {
        var shifted := ShiftLeft(data, bit);
        data := shifted;
      } else {
        var shifted := ShiftRight(data, bit);
        data := shifted;
      }
      bitCount := bitCount + 1;
    }

    method EmitBlock()
      modifies this
      ensures Value() == Emit(old(Value())) && bitsFed == old(bitsFed)
    {
      emitted := emitted + [Block(message, crcHigh, crcLow, parityErrors)];
    }

    /** The character into the message, and its parity. */
    method PushChar()
      modifies this
      ensures Value() == Pushed(old(Value())) && bitsFed == old(bitsFed)
    {
      hide ParityOk;
      var ch := Octet(data);
      if |message| < CAPACITY {
        message := message + [ch];
      }
      if !ParityOk(ch) {
        parityErrors := parityErrors + 1;
      }
    }

    /** The Text test; true when the call goes on to the Crc2 test. */
    method TextChar() returns (shortcut: bool)
      modifies this
      ensures (shortcut, Value()) == TakeText(old(Value())) && bitsFed == old(bitsFed)
    {
      hide ParityOk, Pushed;
      var ch := Octet(data);
      PushChar();
      PushedKeeps(old(Value()));
      if !ParityOk(ch) {
        if parityErrors > MAX_PARITY_ERRORS {
          DoReset();
          return false;
        }
      }
      if ch == ETX || ch == ETB {
        state := Crc1;
        ClearByte();
        return false;
      }
      if |message| > RESET_LENGTH {
        DoReset();
      }
      if |message| > 20 && ch == DEL {
        var n := |message| - 3;
        crcHigh := message[n];
        crcLow := message[n + 1];
        message := message[..n];
        state := Crc2;
        data := crcLow.v;
        return true;
      }
      ClearByte();
      return false;
    }

    method FeedBit(bit: bool)
      modifies this
      ensures Value() == Feed(old(Value()), bit) && bitsFed == old(bitsFed) + 1
    {
      hide ShiftIn, TakeText, TakeOctet;
      ghost var start := AddBit(Value(), bit);
      bitsFed := bitsFed + 1;
      PutBit(bit);
      if bitCount == 8 {
        Dispatch();
      }
    }

    /** The tests of feed_bit, made only when a character is complete. */
    method Dispatch()
      requires bitCount == 8
      modifies this
      ensures Value() == TakeOctet(old(Value())) && bitsFed == old(bitsFed)
    {
      hide TakeText;
      if state == WaitSyn && bitCount == 8 {
        if Octet(data) == SYN {
          state := Syn2;
          ClearByte();
        } else {
          bitCount := bitCount - 1;
        }
        return;
      }
      if state == Syn2 && bitCount == 8 {
        if Octet(data) == SYN {
          state := Soh1;
          ClearByte();
          return;
        }
        DoReset();
      }
      if state == Soh1 && bitCount == 8 {
        if Octet(data) == SOH {
          DoReset();
          state := Text;
          return;
        }
        DoReset();
      }
      if state == Text && bitCount == 8 {
        var shortcut := TextChar();
        if !shortcut {
          return;
        }
      }
      CheckAndEnd();
    }

    /** The Crc1, Crc2 and End tests. */
    method CheckAndEnd()
      modifies this
      ensures bitsFed == old(bitsFed)
      ensures Value() == if old(bitCount) != 8 then old(Value())
                         else match old(state)
                              case Crc1 => Cleared(old(Value()).(crcHigh := old(Value()).data, state := Crc2))
                              case Crc2 => TakeCrc2(old(Value()))
                              case End => Reset(old(Value()))
                              case _ => old(Value())
    {
      if state == Crc1 && bitCount == 8 {
        crcHigh := Octet(data);
        state := Crc2;
        ClearByte();
      }
      if state == Crc2 && bitCount == 8 {
        crcLow := Octet(data);
        EmitBlock();
        DoReset();
        state := End;
        ClearByte();
      }
      if state == End && bitCount == 8 {
        DoReset();
      }
    }

    method FeedBits(bits: seq<bool>)
      modifies this
      ensures Value() == Run(old(Value()), bits) && bitsFed == old(bitsFed) + |bits|
    {
      hide Feed;
      for i := 0 to |bits|
        invariant Value() == Run(old(Value()), bits[..i]) && bitsFed == old(bitsFed) + i
      {
        assert bits[..i + 1] == bits[..i] + [bits[i]];
        RunPush(old(Value()), bits[..i], bits[i]);
        FeedBit(bits[i]);
      }
      assert bits[..|bits|] == bits;
    }
  }

  lemma PushedKeeps(d: Decoder)
    ensures Pushed(d).data == d.data && Pushed(d).bitCount == d.bitCount && Pushed(d).state == d.state
  {
    hide ParityOk;
  }
}
